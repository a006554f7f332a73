/** The stable JSON text digests are taken of: objects printed with their keys in
    order. Numbers are carried by the text they are printed with; keys are ordered
    by character codes, standing for the one order in use. */
module StableJson {

  datatype Entry<T> = Entry(key: string, value: T)

  datatype Json =
    | Null | Bool(on: bool) | Num(text: string) | Str(text: string)
    | Arr(items: seq<Json>) | Obj(fields: seq<Entry<Json>>)

  // ---- ordering keys ----

  predicate Before(a: string, b: string) {
    if b == [] then false
    else if a == [] then true
    else if a[0] != b[0] then a[0] < b[0]
    else Before(a[1..], b[1..])
  }

  lemma {:induction false} BeforeTotal(a: string, b: string)
    ensures a == b || Before(a, b) || Before(b, a)
    ensures Before(a, b) ==> a != b && !Before(b, a)
  {
    if a != [] && b != [] {
      BeforeTotal(a[1..], b[1..]);
      assert a == [a[0]] + a[1..] && b == [b[0]] + b[1..];
    }
  }

  lemma {:induction false} BeforeTransitive(a: string, b: string, c: string)
    requires Before(a, b) && Before(b, c)
    ensures Before(a, c)
  {
    if a != [] && a[0] == b[0] == c[0] {
      BeforeTransitive(a[1..], b[1..], c[1..]);
    }
  }

  function Insert<T>(sorted: seq<Entry<T>>, e: Entry<T>): seq<Entry<T>> {
    if sorted == [] then [e]
    else if Before(e.key, sorted[0].key) then [e] + sorted
    else [sorted[0]] + Insert(sorted[1..], e)
  }

  /** The entries in key order. */
  function Sorted<T>(entries: seq<Entry<T>>): seq<Entry<T>> {
    if entries == [] then [] else Insert(Sorted(entries[..|entries| - 1]), entries[|entries| - 1])
  }

  // ---- printing ----

  function Hex(n: nat): char
    requires n < 16
  {
    if n < 10 then n as char + '0' else (n - 10) as char + 'a'
  }

  /** A character inside a string text: quotes, backslashes and control
      characters are escaped. */
  function Escaped(c: char): (r: string)
    ensures |r| > 0
  {
    if c == '"' then ['\\', '"']
    else if c == '\\' then ['\\', '\\']
    else if c == '\n' then ['\\', 'n']
    else if c == '\r' then ['\\', 'r']
    else if c == '\t' then ['\\', 't']
    else if c as int == 8 then ['\\', 'b']
    else if c as int == 12 then ['\\', 'f']
    else if c < ' ' then ['\\', 'u', '0', '0', Hex(c as nat / 16), Hex(c as nat % 16)]
    else [c]
  }

  /** Two characters for what has a short escape, six for other control characters,
      and every other character stands for itself. */
  lemma EscapedForms(c: char)
    ensures |Escaped(c)| ==
              if c in {'"', '\\', '\n', '\r', '\t', '\U{0008}', '\U{000C}'} then 2 else if c < ' ' then 6 else 1
    ensures |Escaped(c)| == 1 ==> Escaped(c) == [c]
    ensures |Escaped(c)| > 1 ==> Escaped(c)[0] == '\\'
  {
  }

  function EscapedText(s: string): string {
    if s == [] then [] else Escaped(s[0]) + EscapedText(s[1..])
  }

  function Quoted(s: string): string { ['"'] + (EscapedText(s) + ['"']) }

  const NULL_TEXT := "null"
  const TRUE_TEXT := "true"
  const FALSE_TEXT := "false"

  /** What follows the first element of a list: a comma before each other one, and
      the closing bracket. */
  function ItemsTail(texts: seq<string>): string {
    if texts == [] then [']'] else [','] + (texts[0] + ItemsTail(texts[1..]))
  }

  function ArrayText(texts: seq<string>): string {
    if texts == [] then ['[', ']'] else ['['] + (texts[0] + ItemsTail(texts[1..]))
  }

  function FieldText(e: Entry<string>): string { Quoted(e.key) + ([':'] + e.value) }

  function FieldsTail(entries: seq<Entry<string>>): string {
    if entries == [] then ['}'] else [','] + (FieldText(entries[0]) + FieldsTail(entries[1..]))
  }

  function ObjectText(entries: seq<Entry<string>>): string {
    if entries == [] then ['{', '}'] else ['{'] + (FieldText(entries[0]) + FieldsTail(entries[1..]))
  }

  /** Children are printed and entries put in key order; the order looks at keys
      only, so it makes no difference which is done first. */
  function StableText(v: Json): string {
    match v
    case Null => NULL_TEXT
    case Bool(on) => if on then TRUE_TEXT else FALSE_TEXT
    case Num(text) => text
    case Str(text) => Quoted(text)
    case Arr(items) => ArrayText(StableTexts(items))
    case Obj(fields) => ObjectText(Sorted(StableEntries(fields)))
  }

  function StableTexts(items: seq<Json>): seq<string> {
    if items == [] then [] else [StableText(items[0])] + StableTexts(items[1..])
  }

  function StableEntries(fields: seq<Entry<Json>>): seq<Entry<string>> {
    if fields == [] then [] else [Entry(fields[0].key, StableText(fields[0].value))] + StableEntries(fields[1..])
  }

  // ---- the value printed ----

  /** The value with the entries of every object in key order. */
  function Normal(v: Json): Json {
    match v
    case Arr(items) => Arr(NormalItems(items))
    case Obj(fields) => Obj(Sorted(NormalFields(fields)))
    case _ => v
  }

  function NormalItems(items: seq<Json>): (r: seq<Json>)
    ensures |r| == |items|
  {
    if items == [] then [] else [Normal(items[0])] + NormalItems(items[1..])
  }

  function NormalFields(fields: seq<Entry<Json>>): (r: seq<Entry<Json>>)
    ensures |r| == |fields|
  {
    if fields == [] then [] else [Entry(fields[0].key, Normal(fields[0].value))] + NormalFields(fields[1..])
  }

  /** Printing without sorting. */
  function Text(v: Json): string {
    match v
    case Null => NULL_TEXT
    case Bool(on) => if on then TRUE_TEXT else FALSE_TEXT
    case Num(text) => text
    case Str(text) => Quoted(text)
    case Arr(items) => ArrayText(Texts(items))
    case Obj(fields) => ObjectText(Entries(fields))
  }

  function Texts(items: seq<Json>): seq<string> {
    if items == [] then [] else [Text(items[0])] + Texts(items[1..])
  }

  function Entries(fields: seq<Entry<Json>>): (r: seq<Entry<string>>)
    ensures |r| == |fields|
  {
    if fields == [] then [] else [Entry(fields[0].key, Text(fields[0].value))] + Entries(fields[1..])
  }

  lemma {:induction false} EntriesOfInsert(sorted: seq<Entry<Json>>, e: Entry<Json>)
    ensures Entries(Insert(sorted, e)) == Insert(Entries(sorted), Entry(e.key, Text(e.value)))
  {
    if sorted == [] {
      assert Insert(sorted, e)[1..] == [];
    } else if Before(e.key, sorted[0].key) {
      assert Insert(sorted, e)[1..] == sorted;
    } else {
      EntriesOfInsert(sorted[1..], e);
      assert Insert(sorted, e)[1..] == Insert(sorted[1..], e);
      assert Entries(sorted)[1..] == Entries(sorted[1..]);
    }
  }

  lemma {:induction false} EntriesOfPrefix(fields: seq<Entry<Json>>)
    requires fields != []
    ensures var n := |fields| - 1;
            Entries(fields) == Entries(fields[..n]) + [Entry(fields[n].key, Text(fields[n].value))]
  {
    var n := |fields| - 1;
    if n > 0 {
      EntriesOfPrefix(fields[1..]);
      assert fields[1..][..n - 1] == fields[..n][1..];
    } else {
      assert fields[1..] == [];
    }
  }

  lemma {:induction false} EntriesOfSorted(fields: seq<Entry<Json>>)
    ensures Entries(Sorted(fields)) == Sorted(Entries(fields))
  {
    if fields != [] {
      var n := |fields| - 1;
      EntriesOfSorted(fields[..n]);
      EntriesOfInsert(Sorted(fields[..n]), fields[n]);
      EntriesOfPrefix(fields);
      assert Entries(fields)[..n] == Entries(fields[..n]);
    }
  }

  /** Stable printing is printing the normal form. */
  lemma {:induction false} StableIsNormal(v: Json)
    ensures StableText(v) == Text(Normal(v))
  {
    match v {
      case Arr(items) => StableIsNormalItems(items);
      case Obj(fields) =>
        StableIsNormalFields(fields);
        EntriesOfSorted(NormalFields(fields));
      case _ =>
    }
  }

  lemma {:induction false} StableIsNormalItems(items: seq<Json>)
    ensures StableTexts(items) == Texts(NormalItems(items))
  {
    if items != [] {
      StableIsNormal(items[0]);
      StableIsNormalItems(items[1..]);
      assert NormalItems(items)[1..] == NormalItems(items[1..]);
    }
  }

  lemma {:induction false} StableIsNormalFields(fields: seq<Entry<Json>>)
    ensures StableEntries(fields) == Entries(NormalFields(fields))
  {
    if fields != [] {
      StableIsNormal(fields[0].value);
      StableIsNormalFields(fields[1..]);
      assert NormalFields(fields)[1..] == NormalFields(fields[1..]);
    }
  }

  // ---- values up to key order ----

  predicate DistinctKeys<T>(entries: seq<Entry<T>>) {
    forall j, k :: 0 <= j < k < |entries| ==> entries[j].key != entries[k].key
  }

  /** No object names a key twice. */
  predicate WellFormed(v: Json) {
    match v
    case Arr(items) => forall k :: 0 <= k < |items| ==> WellFormed(items[k])
    case Obj(fields) => DistinctKeys(fields) && forall k :: 0 <= k < |fields| ==> WellFormed(fields[k].value)
    case _ => true
  }

  /** Equality of values with objects taken as maps from keys. */
  predicate SameValue(v: Json, w: Json)
    decreases v, 0
  {
    match v
    case Arr(items) =>
      && w.Arr? && |items| == |w.items| && forall k :: 0 <= k < |items| ==> SameValue(items[k], w.items[k])
    case Obj(fields) =>
      && w.Obj? && |fields| == |w.fields| && forall k :: 0 <= k < |fields| ==> HasSame(fields[k], w.fields)
    case _ => v == w
  }

  /** Some entry has the same key and the same value. */
  predicate HasSame(e: Entry<Json>, fields: seq<Entry<Json>>)
    decreases e.value, 1
  {
    exists k :: 0 <= k < |fields| && fields[k].key == e.key && SameValue(e.value, fields[k].value)
  }

  predicate Ordered<T>(entries: seq<Entry<T>>) {
    forall j, k :: 0 <= j < k < |entries| ==> Before(entries[j].key, entries[k].key)
  }

  lemma {:induction false} InsertPermutes<T>(sorted: seq<Entry<T>>, e: Entry<T>)
    ensures multiset(Insert(sorted, e)) == multiset(sorted) + multiset{e}
  {
    if sorted != [] && !Before(e.key, sorted[0].key) {
      InsertPermutes(sorted[1..], e);
      assert sorted == [sorted[0]] + sorted[1..];
    }
  }

  lemma {:induction false} SortedPermutes<T>(entries: seq<Entry<T>>)
    ensures multiset(Sorted(entries)) == multiset(entries)
  {
    if entries != [] {
      var n := |entries| - 1;
      SortedPermutes(entries[..n]);
      InsertPermutes(Sorted(entries[..n]), entries[n]);
      assert entries == entries[..n] + [entries[n]];
    }
  }

  lemma {:induction false} InsertOrdered<T>(sorted: seq<Entry<T>>, e: Entry<T>)
    requires Ordered(sorted) && forall k :: 0 <= k < |sorted| ==> sorted[k].key != e.key
    ensures Ordered(Insert(sorted, e))
  {
    if sorted != [] {
      var first, rest := sorted[0], sorted[1..];
      BeforeTotal(e.key, first.key);
      if Before(e.key, first.key) {
        forall k | 0 <= k < |sorted|
          ensures Before(e.key, sorted[k].key)
        {
          if k > 0 {
            BeforeTransitive(e.key, first.key, sorted[k].key);
          }
        }
      } else {
        InsertOrdered(rest, e);
        InsertPermutes(rest, e);
        var more := Insert(rest, e);
        forall k | 0 <= k < |more|
          ensures Before(first.key, more[k].key)
        {
          assert more[k] in multiset(more);
          if more[k] != e {
            assert more[k] in rest;
          }
        }
      }
    }
  }

  lemma {:induction false} SortedIsOrdered<T>(entries: seq<Entry<T>>)
    requires DistinctKeys(entries)
    ensures Ordered(Sorted(entries))
  {
    if entries != [] {
      var n := |entries| - 1;
      SortedIsOrdered(entries[..n]);
      SortedPermutes(entries[..n]);
      var before := Sorted(entries[..n]);
      forall k | 0 <= k < |before|
        ensures before[k].key != entries[n].key
      {
        assert before[k] in multiset(before);
        assert before[k] in entries[..n];
      }
      InsertOrdered(before, entries[n]);
    }
  }

  lemma OrderedFirst<T>(a: seq<Entry<T>>, b: seq<Entry<T>>)
    requires Ordered(a) && Ordered(b) && multiset(a) == multiset(b) && a != []
    ensures b != [] && a[0] == b[0]
  {
    assert a[0] in multiset(a);
    assert a[0] in b;
    assert b[0] in multiset(b);
    assert b[0] in a;
    var j :| 0 <= j < |b| && b[j] == a[0];
    var k :| 0 <= k < |a| && a[k] == b[0];
    BeforeTotal(a[0].key, b[0].key);
  }

  /** There is only one order of given entries by distinct keys. */
  lemma {:induction false} OrderedUnique<T>(a: seq<Entry<T>>, b: seq<Entry<T>>)
    requires Ordered(a) && Ordered(b) && multiset(a) == multiset(b)
    ensures a == b
  {
    if a == [] {
      assert |multiset(b)| == 0;
    } else {
      OrderedFirst(a, b);
      assert a == [a[0]] + a[1..] && b == [b[0]] + b[1..];
      assert multiset(a[1..]) == multiset(a) - multiset{a[0]};
      assert multiset(b[1..]) == multiset(b) - multiset{b[0]};
      OrderedUnique(a[1..], b[1..]);
    }
  }

  function Removed<T>(s: seq<T>, j: nat): (r: seq<T>)
    requires j < |s|
    ensures |r| == |s| - 1
  {
    s[..j] + s[j + 1..]
  }

  lemma RemovedKeeps<T>(s: seq<T>, j: nat, x: T)
    requires j < |s| && x in s && x != s[j]
    ensures x in Removed(s, j)
  {
    var i :| 0 <= i < |s| && s[i] == x;
    assert i < j ==> Removed(s, j)[i] == x;
    assert i > j ==> Removed(s, j)[i - 1] == x;
  }

  lemma RemovedCounts<T>(s: seq<T>, j: nat)
    requires j < |s|
    ensures multiset(s) == multiset(Removed(s, j)) + multiset{s[j]}
  {
    assert s == s[..j] + ([s[j]] + s[j + 1..]);
  }

  /** Distinct entries, all found in a list of the same length, are that list in
      some order. */
  lemma {:induction false} AllFoundIsPermutation<T>(a: seq<Entry<T>>, b: seq<Entry<T>>)
    requires DistinctKeys(a) && |a| == |b| && forall k :: 0 <= k < |a| ==> a[k] in b
    ensures multiset(a) == multiset(b)
  {
    hide Removed;
    if a != [] {
      var n := |a| - 1;
      var j :| 0 <= j < |b| && b[j] == a[n];
      forall k | 0 <= k < n
        ensures a[..n][k] in Removed(b, j)
      {
        assert a[k] in b && a[k] != a[n];
        RemovedKeeps(b, j, a[k]);
      }
      AllFoundIsPermutation(a[..n], Removed(b, j));
      assert a == a[..n] + [a[n]];
      RemovedCounts(b, j);
    }
  }

  lemma {:induction false} NormalFieldsAt(fields: seq<Entry<Json>>, k: nat)
    requires k < |fields|
    ensures NormalFields(fields)[k] == Entry(fields[k].key, Normal(fields[k].value))
  {
    if k > 0 {
      NormalFieldsAt(fields[1..], k - 1);
    }
  }

  lemma {:induction false} NormalItemsAt(items: seq<Json>, k: nat)
    requires k < |items|
    ensures NormalItems(items)[k] == Normal(items[k])
  {
    if k > 0 {
      NormalItemsAt(items[1..], k - 1);
    }
  }

  lemma NormalKeysDistinct(fields: seq<Entry<Json>>)
    requires DistinctKeys(fields)
    ensures DistinctKeys(NormalFields(fields))
  {
    forall j, k | 0 <= j < k < |fields|
      ensures NormalFields(fields)[j].key != NormalFields(fields)[k].key
    {
      NormalFieldsAt(fields, j);
      NormalFieldsAt(fields, k);
    }
  }

  /** Two values have one normal form exactly when they are the same up to the
      order of keys. */
  lemma {:induction false} NormalIffSame(v: Json, w: Json)
    requires WellFormed(v) && WellFormed(w)
    ensures Normal(v) == Normal(w) <==> SameValue(v, w)
    decreases v, 0
  {
    match v {
      case Arr(items) =>
        if w.Arr? && |items| == |w.items| {
          forall k | 0 <= k < |items|
            ensures NormalItems(items)[k] == NormalItems(w.items)[k] <==> SameValue(items[k], w.items[k])
          {
            NormalItemsAt(items, k);
            NormalItemsAt(w.items, k);
            NormalIffSame(items[k], w.items[k]);
          }
        }
      case Obj(fields) =>
        if w.Obj? {
          hide HasSame, Sorted, DistinctKeys, NormalFields;
          forall k | 0 <= k < |fields|
            ensures NormalFields(fields)[k] in NormalFields(w.fields) <==> HasSame(fields[k], w.fields)
          {
            NormalFieldsAt(fields, k);
            FoundIffSame(fields[k], w.fields);
          }
          NormalObjects(fields, w.fields);
        }
      case _ =>
    }
  }

  lemma {:induction false} FoundIffSame(e: Entry<Json>, fields: seq<Entry<Json>>)
    requires WellFormed(e.value) && forall k :: 0 <= k < |fields| ==> WellFormed(fields[k].value)
    ensures Entry(e.key, Normal(e.value)) in NormalFields(fields) <==> HasSame(e, fields)
    decreases e.value, 1
  {
    hide WellFormed, SameValue, Normal, NormalFields;
    forall k | 0 <= k < |fields|
      ensures NormalFields(fields)[k] == Entry(e.key, Normal(e.value)) <==>
                fields[k].key == e.key && SameValue(e.value, fields[k].value)
    {
      NormalFieldsAt(fields, k);
      NormalIffSame(e.value, fields[k].value);
    }
  }

  lemma NormalObjects(a: seq<Entry<Json>>, b: seq<Entry<Json>>)
    requires DistinctKeys(a) && DistinctKeys(b)
    ensures Sorted(NormalFields(a)) == Sorted(NormalFields(b)) <==>
              |a| == |b| && forall j :: 0 <= j < |a| ==> NormalFields(a)[j] in NormalFields(b)
  {
    var x, y := NormalFields(a), NormalFields(b);
    NormalKeysDistinct(a);
    NormalKeysDistinct(b);
    SortedIsOrdered(x);
    SortedIsOrdered(y);
    SortedPermutes(x);
    SortedPermutes(y);
    if Sorted(x) == Sorted(y) {
      assert |x| == |multiset(x)| == |multiset(y)| == |y|;
      forall j | 0 <= j < |x|
        ensures x[j] in y
      {
        assert x[j] in multiset(x);
      }
    }
    if |x| == |y| && forall j :: 0 <= j < |x| ==> x[j] in y {
      AllFoundIsPermutation(x, y);
      OrderedUnique(Sorted(x), Sorted(y));
    }
  }
}
