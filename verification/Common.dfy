/** Optional values, results of transactions, and the trimming of free texts. */
module Common {

  datatype Option<+T> = None | Some(value: T)

  /** White space and line terminators, sections 12.2 and 12.3 of ECMA-262. */
  predicate IsSpace(c: char) {
    || c == ' ' || '\t' <= c <= '\r' || c == '\U{00A0}' || c == '\U{1680}' || '\U{2000}' <= c <= '\U{200A}'
    || c == '\U{2028}' || c == '\U{2029}' || c == '\U{202F}' || c == '\U{205F}' || c == '\U{3000}' || c == '\U{FEFF}'
  }

  function TrimStart(s: string): (r: string)
    ensures |r| <= |s| && (|r| > 0 ==> !IsSpace(r[0]))
  {
    if |s| > 0 && IsSpace(s[0]) then TrimStart(s[1..]) else s
  }

  function TrimEnd(s: string): (r: string)
    ensures r <= s && (|r| > 0 ==> !IsSpace(r[|r| - 1]))
  {
    if |s| > 0 && IsSpace(s[|s| - 1]) then TrimEnd(s[..|s| - 1]) else s
  }

  /** `text?.trim()`: a blank text becomes empty, not absent. */
  function JustTrimmed(text: Option<string>): Option<string> {
    if text.None? then None else Some(TrimEnd(TrimStart(text.value)))
  }

  /** `text?.trim() || undefined`: a text that is absent or blank is absent. */
  function Trimmed(text: Option<string>): (r: Option<string>)
    ensures r.Some? ==> |r.value| > 0 && !IsSpace(r.value[0]) && !IsSpace(r.value[|r.value| - 1])
  {
    if text.None? then None
    else var t := TrimEnd(TrimStart(text.value)); if |t| == 0 then None else Some(t)
  }

  /** Some character is not white space. */
  predicate HasText(text: Option<string>) {
    text.Some? && exists k :: 0 <= k < |text.value| && !IsSpace(text.value[k])
  }

  lemma {:induction false} TrimStartKeeps(s: string)
    ensures exists n: nat :: n <= |s| && TrimStart(s) == s[n..] && forall k :: 0 <= k < n ==> IsSpace(s[k])
  {
    if |s| > 0 && IsSpace(s[0]) {
      TrimStartKeeps(s[1..]);
      var n: nat :| n <= |s[1..]| && TrimStart(s[1..]) == s[1..][n..] && forall k :: 0 <= k < n ==> IsSpace(s[1..][k]);
      assert s[1..][n..] == s[n + 1..];
      forall k | 0 <= k < n + 1
        ensures IsSpace(s[k])
      {
        assert k > 0 ==> s[1..][k - 1] == s[k];
      }
    } else {
      assert s[0..] == s;
    }
  }

  lemma {:induction false} TrimEndKeeps(s: string)
    ensures forall k :: |TrimEnd(s)| <= k < |s| ==> IsSpace(s[k])
  {
    if |s| > 0 && IsSpace(s[|s| - 1]) {
      TrimEndKeeps(s[..|s| - 1]);
    }
  }

  /** Trimming leaves something exactly when there is something to leave. */
  lemma TrimmedIff(text: Option<string>)
    ensures Trimmed(text).Some? <==> HasText(text)
  {
    if text.Some? {
      var s := text.value;
      TrimStartKeeps(s);
      var n: nat :| n <= |s| && TrimStart(s) == s[n..] && forall k :: 0 <= k < n ==> IsSpace(s[k]);
      TrimEndKeeps(s[n..]);
      if Trimmed(text).Some? {
        assert s[n] == TrimEnd(s[n..])[0];
      }
    }
  }
}
