/** A parser for JSON texts without insignificant whitespace, by the grammar of
    sections 3 to 7 of RFC 8259, and what it says of stable texts. */
module JsonParser {
  import opened StableJson

  datatype Parsed<+T> = Read(value: T, rest: string) | Malformed

  // ---- strings (section 7) ----

  /** Sixteen is returned for a character that is no hexadecimal digit. */
  function HexValue(c: char): nat {
    if '0' <= c <= '9' then (c - '0') as nat
    else if 'a' <= c <= 'f' then (c - 'a') as nat + 10
    else if 'A' <= c <= 'F' then (c - 'A') as nat + 10
    else 16
  }

  /** The character a one-letter escape stands for; the letter u for any other. */
  function Unescaped(c: char): char {
    if c == '"' || c == '\\' || c == '/' then c
    else if c == 'b' then 8 as char
    else if c == 'f' then 12 as char
    else if c == 'n' then '\n'
    else if c == 'r' then '\r'
    else if c == 't' then '\t'
    else 'u'
  }

  /** One character of a string text. A code of four hexadecimal digits stands for
      its character; surrogate codes are not read. */
  function ParseChar(s: string): (r: Parsed<char>)
    ensures r.Read? ==> |r.rest| < |s|
  {
    if s == [] || s[0] == '"' || s[0] < ' ' then Malformed
    else if s[0] != '\\' then Read(s[0], s[1..])
    else if |s| >= 2 && Unescaped(s[1]) != 'u' then Read(Unescaped(s[1]), s[2..])
    else if |s| >= 6 && s[1] == 'u' && HexValue(s[2]) < 16 && HexValue(s[3]) < 16 && HexValue(s[4]) < 16
      && HexValue(s[5]) < 16 then
      var code := 4096 * HexValue(s[2]) + 256 * HexValue(s[3]) + 16 * HexValue(s[4]) + HexValue(s[5]);
      if 0xD800 <= code < 0xE000 then Malformed else Read(code as char, s[6..])
    else Malformed
  }

  /** The rest of a string text, after its opening quote. */
  function ParseString(s: string): (r: Parsed<string>)
    ensures r.Read? ==> |r.rest| < |s|
    decreases |s|
  {
    if s != [] && s[0] == '"' then Read([], s[1..])
    else
      var c := ParseChar(s);
      if c.Malformed? then Malformed
      else
        var more := ParseString(c.rest);
        if more.Malformed? then Malformed else Read([c.value] + more.value, more.rest)
  }

  // ---- numbers (section 6) ----

  predicate IsDigit(c: char) { '0' <= c <= '9' }

  predicate NumberChar(c: char) { IsDigit(c) || c == '-' || c == '+' || c == '.' || c == 'e' || c == 'E' }

  function SkipDigits(s: string): string {
    if s != [] && IsDigit(s[0]) then SkipDigits(s[1..]) else s
  }

  predicate StartsWithDigit(s: string) { s != [] && IsDigit(s[0]) }

  /** Zero, or digits that do not start with one. */
  function AfterInt(s: string): Parsed<string> {
    if !StartsWithDigit(s) then Malformed
    else if s[0] == '0' then Read([], s[1..])
    else Read([], SkipDigits(s))
  }

  function AfterFraction(s: string): Parsed<string> {
    if s == [] || s[0] != '.' then Read([], s)
    else if StartsWithDigit(s[1..]) then Read([], SkipDigits(s[1..]))
    else Malformed
  }

  function AfterExponent(s: string): Parsed<string> {
    if s == [] || (s[0] != 'e' && s[0] != 'E') then Read([], s)
    else
      var t := if |s| > 1 && (s[1] == '+' || s[1] == '-') then s[2..] else s[1..];
      if StartsWithDigit(t) then Read([], SkipDigits(t)) else Malformed
  }

  predicate IsNumber(s: string) {
    var unsigned := if s != [] && s[0] == '-' then s[1..] else s;
    var whole := AfterInt(unsigned);
    whole.Read? &&
    var fraction := AfterFraction(whole.rest);
    fraction.Read? &&
    var exponent := AfterExponent(fraction.rest);
    exponent.Read? && exponent.rest == []
  }

  /** The longest run of characters that numbers are made of. */
  function NumberRun(s: string): (r: string)
    ensures r <= s
  {
    if s != [] && NumberChar(s[0]) then [s[0]] + NumberRun(s[1..]) else []
  }

  // ---- values (sections 3, 4 and 5) ----

  function ParseWord(s: string, word: string, v: Json): (r: Parsed<Json>)
    requires word != []
    ensures r.Read? ==> |r.rest| < |s|
  {
    if word <= s then Read(v, s[|word|..]) else Malformed
  }

  function ParseNumber(s: string): (r: Parsed<Json>)
    ensures r.Read? ==> |r.rest| < |s|
  {
    var run := NumberRun(s);
    if run != [] && IsNumber(run) then Read(Num(run), s[|run|..]) else Malformed
  }

  function ParseValue(s: string): (r: Parsed<Json>)
    ensures r.Read? ==> |r.rest| < |s|
    decreases |s|, 0
  {
    if s == [] then Malformed
    else if s[0] == 'n' then ParseWord(s, NULL_TEXT, Null)
    else if s[0] == 't' then ParseWord(s, TRUE_TEXT, Bool(true))
    else if s[0] == 'f' then ParseWord(s, FALSE_TEXT, Bool(false))
    else if s[0] == '"' then
      var text := ParseString(s[1..]);
      if text.Malformed? then Malformed else Read(Str(text.value), text.rest)
    else if s[0] == '[' then
      if |s| > 1 && s[1] == ']' then Read(Arr([]), s[2..])
      else
        var first := ParseValue(s[1..]);
        if first.Malformed? then Malformed
        else
          var more := ParseItems(first.rest);
          if more.Malformed? then Malformed else Read(Arr([first.value] + more.value), more.rest)
    else if s[0] == '{' then
      if |s| > 1 && s[1] == '}' then Read(Obj([]), s[2..])
      else
        var first := ParseField(s[1..]);
        if first.Malformed? then Malformed
        else
          var more := ParseFields(first.rest);
          if more.Malformed? then Malformed else Read(Obj([first.value] + more.value), more.rest)
    else ParseNumber(s)
  }

  /** Further items, up to the closing bracket. */
  function ParseItems(s: string): (r: Parsed<seq<Json>>)
    ensures r.Read? ==> |r.rest| < |s|
    decreases |s|, 1
  {
    if s != [] && s[0] == ']' then Read([], s[1..])
    else if s != [] && s[0] == ',' then
      var item := ParseValue(s[1..]);
      if item.Malformed? then Malformed
      else
        var more := ParseItems(item.rest);
        if more.Malformed? then Malformed else Read([item.value] + more.value, more.rest)
    else Malformed
  }

  /** A key, a colon and a value. */
  function ParseField(s: string): (r: Parsed<Entry<Json>>)
    ensures r.Read? ==> |r.rest| < |s|
    decreases |s|, 1
  {
    if s == [] || s[0] != '"' then Malformed
    else
      var key := ParseString(s[1..]);
      if key.Malformed? || key.rest == [] || key.rest[0] != ':' then Malformed
      else
        var value := ParseValue(key.rest[1..]);
        if value.Malformed? then Malformed else Read(Entry(key.value, value.value), value.rest)
  }

  function ParseFields(s: string): (r: Parsed<seq<Entry<Json>>>)
    ensures r.Read? ==> |r.rest| < |s|
    decreases |s|, 2
  {
    if s != [] && s[0] == '}' then Read([], s[1..])
    else if s != [] && s[0] == ',' then
      var field := ParseField(s[1..]);
      if field.Malformed? then Malformed
      else
        var more := ParseFields(field.rest);
        if more.Malformed? then Malformed else Read([field.value] + more.value, more.rest)
    else Malformed
  }

  // ---- strings read back ----

  lemma CharBack(c: char, more: string)
    ensures ParseChar(Escaped(c) + more) == Read(c, more)
    ensures Escaped(c)[0] != '"'
  {
    var s := Escaped(c) + more;
    assert s[|Escaped(c)|..] == more;
    if c < ' ' && |Escaped(c)| == 6 {
      HexBack(c as nat / 16);
      HexBack(c as nat % 16);
      assert s[1] == 'u' && s[2] == '0' && s[3] == '0' && s[4] == Hex(c as nat / 16) && s[5] == Hex(c as nat % 16);
    }
  }

  lemma HexBack(n: nat)
    requires n < 16
    ensures HexValue(Hex(n)) == n
  {
  }

  lemma {:induction false} StringBack(s: string, rest: string)
    ensures ParseString(EscapedText(s) + (['"'] + rest)) == Read(s, rest)
  {
    hide ParseChar, Escaped;
    var tail := ['"'] + rest;
    if s == [] {
      assert [] + tail == tail && tail[1..] == rest;
    } else {
      var more := EscapedText(s[1..]) + tail;
      StringBack(s[1..], rest);
      CharBack(s[0], more);
      assert EscapedText(s) + tail == Escaped(s[0]) + more;
      assert (Escaped(s[0]) + more)[0] == Escaped(s[0])[0];
      assert s == [s[0]] + s[1..];
    }
  }

  // ---- numbers read back ----

  predicate NumberChars(s: string) { forall k :: 0 <= k < |s| ==> NumberChar(s[k]) }

  lemma AddChar(s: string)
    requires s != [] && NumberChar(s[0]) && NumberChars(s[1..])
    ensures NumberChars(s)
  {
    forall k | 0 <= k < |s|
      ensures NumberChar(s[k])
    {
      if k > 0 {
        assert s[1..][k - 1] == s[k];
      }
    }
  }

  lemma {:induction false} SkipDigitsChars(s: string)
    requires NumberChars(SkipDigits(s))
    ensures NumberChars(s)
  {
    if s != [] && IsDigit(s[0]) {
      SkipDigitsChars(s[1..]);
      AddChar(s);
    }
  }

  lemma ExponentChars(s: string)
    requires AfterExponent(s).Read? && NumberChars(AfterExponent(s).rest)
    ensures NumberChars(s)
  {
    if s != [] && (s[0] == 'e' || s[0] == 'E') {
      if |s| > 1 && (s[1] == '+' || s[1] == '-') {
        SkipDigitsChars(s[2..]);
        assert s[1..][1..] == s[2..];
        AddChar(s[1..]);
      } else {
        SkipDigitsChars(s[1..]);
      }
      AddChar(s);
    }
  }

  lemma FractionChars(s: string)
    requires AfterFraction(s).Read? && NumberChars(AfterFraction(s).rest)
    ensures NumberChars(s)
  {
    if s != [] && s[0] == '.' {
      SkipDigitsChars(s[1..]);
      AddChar(s);
    }
  }

  lemma IntChars(s: string)
    requires AfterInt(s).Read? && NumberChars(AfterInt(s).rest)
    ensures NumberChars(s) && s != []
  {
    if s[0] == '0' {
      AddChar(s);
    } else {
      SkipDigitsChars(s);
    }
  }

  lemma NumberShape(s: string)
    requires IsNumber(s)
    ensures NumberChars(s) && s != [] && (s[0] == '-' || IsDigit(s[0]))
  {
    var unsigned := if s[0] == '-' then s[1..] else s;
    var whole := AfterInt(unsigned);
    ExponentChars(AfterFraction(whole.rest).rest);
    FractionChars(whole.rest);
    IntChars(unsigned);
    if s[0] == '-' {
      AddChar(s);
    }
  }

  /** What may follow a value: the end of the text or a structural character. */
  predicate Follows(rest: string) { rest == [] || rest[0] == ',' || rest[0] == ']' || rest[0] == '}' }

  lemma {:induction false} RunBack(s: string, rest: string)
    requires NumberChars(s) && Follows(rest)
    ensures NumberRun(s + rest) == s
  {
    if s == [] {
      assert s + rest == rest;
    } else {
      assert NumberChar(s[0]);
      forall k | 0 <= k < |s| - 1
        ensures NumberChar(s[1..][k])
      {
        assert NumberChar(s[k + 1]);
      }
      RunBack(s[1..], rest);
      assert (s + rest)[1..] == s[1..] + rest;
      assert s == [s[0]] + s[1..];
    }
  }

  lemma NumberBack(s: string, rest: string)
    requires IsNumber(s) && Follows(rest)
    ensures ParseValue(s + rest) == Read(Num(s), rest)
  {
    NumberShape(s);
    RunBack(s, rest);
    hide IsNumber, NumberRun, NumberChars;
    assert (s + rest)[0] == s[0];
    assert (s + rest)[|s|..] == rest;
  }

  // ---- values read back ----

  /** Number texts are numbers. */
  predicate NumbersOk(v: Json) {
    match v
    case Num(text) => IsNumber(text)
    case Arr(items) => forall k :: 0 <= k < |items| ==> NumbersOk(items[k])
    case Obj(fields) => forall k :: 0 <= k < |fields| ==> NumbersOk(fields[k].value)
    case _ => true
  }

  lemma WordBack(word: string, v: Json, rest: string)
    requires word != []
    ensures ParseWord(word + rest, word, v) == Read(v, rest)
  {
    assert (word + rest)[|word|..] == rest;
  }

  lemma LeafBack(v: Json, rest: string)
    requires !v.Arr? && !v.Obj? && NumbersOk(v) && Follows(rest)
    ensures ParseValue(Text(v) + rest) == Read(v, rest)
  {
    hide ParseString, ParseWord, ParseItems, ParseFields, ParseField, EscapedText;
    match v {
      case Null => WordBack(NULL_TEXT, v, rest);
      case Bool(on) => WordBack(if on then TRUE_TEXT else FALSE_TEXT, v, rest);
      case Num(text) => NumberBack(text, rest);
      case Str(text) =>
        StringBack(text, rest);
        assert Quoted(text) + rest == ['"'] + (EscapedText(text) + (['"'] + rest));
        assert (['"'] + (EscapedText(text) + (['"'] + rest)))[1..] == EscapedText(text) + (['"'] + rest);
    }
  }

  /** The first character of a value's text is not a closing bracket. */
  lemma TextStarts(v: Json)
    requires NumbersOk(v)
    ensures Text(v) != [] && Text(v)[0] != ']' && Text(v)[0] != '}'
  {
    hide EscapedText, ItemsTail, FieldsTail;
    if v.Num? {
      NumberShape(v.text);
    }
  }

  lemma ArrayFirst(text: string, tail: string, v: Json, items: seq<Json>, rest: string)
    requires text != [] && text[0] != ']' && tail != [] && (tail[0] == ',' || tail[0] == ']')
    requires ParseValue(text + tail) == Read(v, tail) && ParseItems(tail) == Read(items, rest)
    ensures ParseValue(['['] + (text + tail)) == Read(Arr([v] + items), rest)
  {
    var s := ['['] + (text + tail);
    assert s[1..] == text + tail && s[1] == text[0];
    hide ParseItems, ParseString, ParseFields, ParseField, ParseNumber;
  }

  lemma ItemNext(text: string, tail: string, v: Json, items: seq<Json>, rest: string)
    requires ParseValue(text + tail) == Read(v, tail) && ParseItems(tail) == Read(items, rest)
    ensures ParseItems([','] + (text + tail)) == Read([v] + items, rest)
  {
    hide ParseValue;
    assert ([','] + (text + tail))[1..] == text + tail;
  }

  lemma ItemsEnd(rest: string)
    ensures ParseItems([']'] + rest) == Read([], rest)
  {
    assert ([']'] + rest)[1..] == rest;
  }

  lemma FieldBack(e: Entry<string>, tail: string, v: Json)
    requires ParseValue(e.value + tail) == Read(v, tail)
    ensures ParseField(FieldText(e) + tail) == Read(Entry(e.key, v), tail)
  {
    hide ParseValue, ParseString, EscapedText;
    var after := [':'] + (e.value + tail);
    StringBack(e.key, after);
    assert FieldText(e) + tail == ['"'] + (EscapedText(e.key) + (['"'] + after));
    assert (['"'] + (EscapedText(e.key) + (['"'] + after)))[1..] == EscapedText(e.key) + (['"'] + after);
    assert after[1..] == e.value + tail;
  }

  lemma ObjectFirst(text: string, tail: string, e: Entry<Json>, fields: seq<Entry<Json>>, rest: string)
    requires text != [] && text[0] == '"'
    requires ParseField(text + tail) == Read(e, tail) && ParseFields(tail) == Read(fields, rest)
    ensures ParseValue(['{'] + (text + tail)) == Read(Obj([e] + fields), rest)
  {
    var s := ['{'] + (text + tail);
    assert s[1..] == text + tail && s[1] == text[0];
    hide ParseItems, ParseString, ParseFields, ParseField, ParseNumber;
  }

  lemma FieldNext(text: string, tail: string, e: Entry<Json>, fields: seq<Entry<Json>>, rest: string)
    requires ParseField(text + tail) == Read(e, tail) && ParseFields(tail) == Read(fields, rest)
    ensures ParseFields([','] + (text + tail)) == Read([e] + fields, rest)
  {
    hide ParseField;
    assert ([','] + (text + tail))[1..] == text + tail;
  }

  lemma FieldsEnd(rest: string)
    ensures ParseFields(['}'] + rest) == Read([], rest)
  {
    assert (['}'] + rest)[1..] == rest;
  }

  /** The text of a value is parsed back to the value, whatever follows it. */
  lemma {:induction false} ValueBack(v: Json, rest: string)
    requires NumbersOk(v) && Follows(rest)
    ensures ParseValue(Text(v) + rest) == Read(v, rest)
    decreases v, 0
  {
    hide ParseValue, ParseItems, ParseFields, ParseField, ItemsTail, FieldsTail, FieldText;
    match v {
      case Arr(items) =>
        if items == [] {
          EmptyBack(rest);
        } else {
          var tail := ItemsTail(Texts(items[1..])) + rest;
          ItemsTailStarts(Texts(items[1..]), rest);
          ItemsBack(items[1..], rest);
          ValueBack(items[0], tail);
          TextStarts(items[0]);
          ArrayFirst(Text(items[0]), tail, items[0], items[1..], rest);
          assert Texts(items)[1..] == Texts(items[1..]);
          assert Text(v) + rest == ['['] + (Text(items[0]) + tail);
          assert [items[0]] + items[1..] == items;
        }
      case Obj(fields) =>
        if fields == [] {
          EmptyBack(rest);
        } else {
          var e := Entry(fields[0].key, Text(fields[0].value));
          var tail := FieldsTail(Entries(fields[1..])) + rest;
          FieldsTailStarts(Entries(fields[1..]), rest);
          FieldsBack(fields[1..], rest);
          ValueBack(fields[0].value, tail);
          FieldBack(e, tail, fields[0].value);
          FieldTextStarts(e);
          ObjectFirst(FieldText(e), tail, fields[0], fields[1..], rest);
          assert Entries(fields)[1..] == Entries(fields[1..]);
          assert Text(v) + rest == ['{'] + (FieldText(e) + tail);
          assert [fields[0]] + fields[1..] == fields;
        }
      case _ => LeafBack(v, rest);
    }
  }

  lemma EmptyBack(rest: string)
    ensures ParseValue(['[', ']'] + rest) == Read(Arr([]), rest)
    ensures ParseValue(['{', '}'] + rest) == Read(Obj([]), rest)
  {
    assert (['[', ']'] + rest)[2..] == rest && (['{', '}'] + rest)[2..] == rest;
  }

  lemma ItemsTailStarts(texts: seq<string>, rest: string)
    ensures ItemsTail(texts) + rest != [] && Follows(ItemsTail(texts) + rest)
    ensures (ItemsTail(texts) + rest)[0] == ',' || (ItemsTail(texts) + rest)[0] == ']'
  {
  }

  lemma FieldsTailStarts(entries: seq<Entry<string>>, rest: string)
    ensures FieldsTail(entries) + rest != [] && Follows(FieldsTail(entries) + rest)
  {
  }

  lemma FieldTextStarts(e: Entry<string>)
    ensures FieldText(e) != [] && FieldText(e)[0] == '"'
  {
  }

  lemma {:induction false} ItemsBack(items: seq<Json>, rest: string)
    requires forall k :: 0 <= k < |items| ==> NumbersOk(items[k])
    ensures ParseItems(ItemsTail(Texts(items)) + rest) == Read(items, rest)
    decreases items, 1
  {
    hide ParseValue, ParseItems, NumbersOk, Text;
    if items == [] {
      ItemsEnd(rest);
    } else {
      var tail := ItemsTail(Texts(items[1..])) + rest;
      ItemsTailStarts(Texts(items[1..]), rest);
      ItemsBack(items[1..], rest);
      ValueBack(items[0], tail);
      ItemNext(Text(items[0]), tail, items[0], items[1..], rest);
      assert Texts(items)[1..] == Texts(items[1..]);
      assert ItemsTail(Texts(items)) + rest == [','] + (Text(items[0]) + tail);
      assert [items[0]] + items[1..] == items;
    }
  }

  lemma {:induction false} FieldsBack(fields: seq<Entry<Json>>, rest: string)
    requires forall k :: 0 <= k < |fields| ==> NumbersOk(fields[k].value)
    ensures ParseFields(FieldsTail(Entries(fields)) + rest) == Read(fields, rest)
    decreases fields, 1
  {
    hide ParseValue, ParseFields, ParseField, NumbersOk, Text, FieldText;
    if fields == [] {
      FieldsEnd(rest);
    } else {
      var e := Entry(fields[0].key, Text(fields[0].value));
      var tail := FieldsTail(Entries(fields[1..])) + rest;
      FieldsTailStarts(Entries(fields[1..]), rest);
      FieldsBack(fields[1..], rest);
      ValueBack(fields[0].value, tail);
      FieldBack(e, tail, fields[0].value);
      FieldNext(FieldText(e), tail, fields[0], fields[1..], rest);
      assert Entries(fields)[1..] == Entries(fields[1..]);
      assert FieldsTail(Entries(fields)) + rest == [','] + (FieldText(e) + tail);
      assert [fields[0]] + fields[1..] == fields;
    }
  }

  // ---- stable texts ----

  lemma {:induction false} NormalNumbersOk(v: Json)
    requires NumbersOk(v)
    ensures NumbersOk(Normal(v))
  {
    match v {
      case Arr(items) =>
        forall k | 0 <= k < |items|
          ensures NumbersOk(NormalItems(items)[k])
        {
          NormalItemsAt(items, k);
          NormalNumbersOk(items[k]);
        }
      case Obj(fields) =>
        var normal := NormalFields(fields);
        forall k | 0 <= k < |fields|
          ensures NumbersOk(normal[k].value)
        {
          NormalFieldsAt(fields, k);
          NormalNumbersOk(fields[k].value);
        }
        SortedPermutes(normal);
        forall k | 0 <= k < |Sorted(normal)|
          ensures Sorted(normal)[k] in normal
        {
          assert Sorted(normal)[k] in multiset(Sorted(normal));
        }
      case _ =>
    }
  }

  /** The parser recovers the key-sorted value from the stable text. */
  lemma StableTextParses(v: Json)
    requires NumbersOk(v)
    ensures ParseValue(StableText(v)) == Read(Normal(v), [])
  {
    hide ParseValue, Text, StableText, NumbersOk;
    NormalNumbersOk(v);
    StableIsNormal(v);
    ValueBack(Normal(v), []);
    assert Text(Normal(v)) + [] == Text(Normal(v));
  }

  /** Two values have the same stable text exactly when they are the same up to
      the order of object keys. */
  lemma StableTextIffSame(v: Json, w: Json)
    requires WellFormed(v) && WellFormed(w) && NumbersOk(v) && NumbersOk(w)
    ensures StableText(v) == StableText(w) <==> SameValue(v, w)
  {
    hide ParseValue, Text, StableText, NumbersOk, Normal, WellFormed, SameValue;
    NormalIffSame(v, w);
    StableIsNormal(v);
    StableIsNormal(w);
    StableTextParses(v);
    StableTextParses(w);
  }
}
