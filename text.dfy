/** The few Python `str` operations the client relies on, over `string` (a sequence of code points). */
module Text {
  import opened Wrappers

  /** Python's `str.isspace` for a single character. */
  predicate IsSpace(c: char) {
    || c == ' '
    || ('\t' <= c <= '\r')
    || ('\U{1C}' <= c <= '\U{1F}')
    || c == '\U{85}' || c == '\U{A0}' || c == '\U{1680}'
    || ('\U{2000}' <= c <= '\U{200A}')
    || c == '\U{2028}' || c == '\U{2029}' || c == '\U{202F}' || c == '\U{205F}' || c == '\U{3000}'
  }

  /** The characters at which Python's `str.splitlines` ends a line. */
  predicate IsLineBreak(c: char) {
    || c == '\n' || c == '\r' || c == '\U{B}' || c == '\U{C}'
    || c == '\U{1C}' || c == '\U{1D}' || c == '\U{1E}'
    || c == '\U{85}' || c == '\U{2028}' || c == '\U{2029}'
  }

  /** Python truthiness of an optional string: `None` and "" are false. */
  predicate Truthy(v: Option<string>) {
    v.Some? && v.value != ""
  }

  predicate StartsWith(s: string, prefix: string) {
    |prefix| <= |s| && s[..|prefix|] == prefix
  }

  /** `t` occurs in `s` starting at index `i`. */
  predicate OccursAt(t: string, s: string, i: nat) {
    i + |t| <= |s| && s[i..i + |t|] == t
  }

  /** Python's `t in s` for strings. */
  function IsInfix(t: string, s: string): (r: bool)
    ensures r <==> exists i: nat :: OccursAt(t, s, i)
    decreases |s|
  {
    if StartsWith(s, t) then
      assert OccursAt(t, s, 0);
      true
    else if s == [] then
      false
    else
      var r := IsInfix(t, s[1..]);
      if r then
        var i: nat :| OccursAt(t, s[1..], i);
        OccursShift(t, s, i + 1);
        true
      else
        forall i: nat | 0 < i ensures !OccursAt(t, s, i) {
          OccursShift(t, s, i);
        }
        false
  }

  /** An occurrence makes `t` an infix of `s`. */
  lemma OccursInfix(t: string, s: string, i: nat)
    requires OccursAt(t, s, i)
    ensures IsInfix(t, s)
  {
  }

  /** Past the first character, an occurrence in `s` is one in `s[1..]`, one position earlier. */
  lemma OccursShift(t: string, s: string, i: nat)
    requires 0 < i && s != []
    ensures OccursAt(t, s, i) <==> OccursAt(t, s[1..], i - 1)
  {
    if i + |t| <= |s| {
      assert s[i..i + |t|] == s[1..][i - 1..i - 1 + |t|];
    }
  }

  /** The index of the first character satisfying `p`, if any. */
  function FirstIndex(s: string, p: char -> bool): (r: Option<nat>)
    ensures r.Some? ==> r.value < |s| && p(s[r.value]) && forall j :: 0 <= j < r.value ==> !p(s[j])
    ensures r.None? ==> forall j :: 0 <= j < |s| ==> !p(s[j])
  {
    if s == [] then None
    else if p(s[0]) then Some(0)
    else
      match FirstIndex(s[1..], p)
      case None => None
      case Some(k) => Some(k + 1)
  }

  /** Python's `s.split(c, 1)[1]`: what follows the first `c`; `None` where Python raises `IndexError`. */
  function AfterFirst(s: string, c: char): (r: Option<string>)
    ensures r.None? <==> c !in s
    ensures r.Some? ==> exists i :: 0 <= i < |s| && s[i] == c && c !in s[..i] && r.value == s[i + 1..]
  {
    match FirstIndex(s, x => x == c)
    case None => None
    case Some(i) => Some(s[i + 1..])
  }

  /** `AfterFirst` at a known first occurrence. */
  lemma AfterFirstAt(s: string, c: char, i: nat)
    requires i < |s| && s[i] == c && forall j :: 0 <= j < i ==> s[j] != c
    ensures AfterFirst(s, c) == Some(s[i + 1..])
  {
    var k :| 0 <= k < |s| && s[k] == c && c !in s[..k] && AfterFirst(s, c).value == s[k + 1..];
  }

  /** Whatever occurs in the part after the first `c` occurs in the whole string. */
  lemma AfterFirstInfix(t: string, s: string, c: char)
    requires AfterFirst(s, c).Some? && IsInfix(t, AfterFirst(s, c).value)
    ensures IsInfix(t, s)
  {
    var rest := AfterFirst(s, c).value;
    var i :| 0 <= i < |s| && s[i] == c && c !in s[..i] && rest == s[i + 1..];
    var k: nat :| OccursAt(t, rest, k);
    assert s[i + 1 + k..i + 1 + k + |t|] == rest[k..k + |t|];
    assert OccursAt(t, s, i + 1 + k);
  }

  /** Python's `s.lstrip()`. */
  function TrimLeft(s: string): (r: string)
    ensures |r| <= |s| && r == s[|s| - |r|..]
    ensures r == [] || !IsSpace(r[0])
    ensures forall i :: 0 <= i < |s| - |r| ==> IsSpace(s[i])
  {
    if s != [] && IsSpace(s[0]) then TrimLeft(s[1..]) else s
  }

  /** Python's `s.rstrip()`. */
  function TrimRight(s: string): (r: string)
    ensures |r| <= |s| && r == s[..|r|]
    ensures r == [] || !IsSpace(r[|r| - 1])
    ensures forall i :: |r| <= i < |s| ==> IsSpace(s[i])
  {
    if s != [] && IsSpace(s[|s| - 1]) then TrimRight(s[..|s| - 1]) else s
  }

  /** Python's `s.strip()`. */
  function Strip(s: string): string {
    TrimRight(TrimLeft(s))
  }

  /** The longest prefix of `s` without whitespace. */
  function TakeWord(s: string): (r: string)
    ensures |r| <= |s| && r == s[..|r|]
    ensures forall i :: 0 <= i < |r| ==> !IsSpace(r[i])
    ensures |r| == |s| || IsSpace(s[|r|])
  {
    if s == [] || IsSpace(s[0]) then [] else [s[0]] + TakeWord(s[1..])
  }

  /** `w` is the first whitespace-delimited word of `s`, starting at index `i`: only whitespace
      comes before it, and whitespace or the end of `s` comes after it. */
  predicate IsWordAt(w: string, s: string, i: nat) {
    && OccursAt(w, s, i)
    && (forall k :: 0 <= k < i ==> IsSpace(s[k]))
    && (i + |w| == |s| || IsSpace(s[i + |w|]))
  }

  /** Python's `s.strip().split()[0]`; `None` where Python raises `IndexError` (nothing but whitespace). */
  function FirstWord(s: string): (r: Option<string>)
    ensures r.None? <==> forall i :: 0 <= i < |s| ==> IsSpace(s[i])
    ensures r.Some? ==> r.value != [] && forall i :: 0 <= i < |r.value| ==> !IsSpace(r.value[i])
    ensures r.Some? ==> exists i: nat :: IsWordAt(r.value, s, i)
    ensures r.Some? ==> IsInfix(r.value, s)
  {
    var t := TrimLeft(s);
    if t == [] then None
    else
      var w := TakeWord(t);
      assert w != [] by { assert !IsSpace(t[0]); }
      var i := |s| - |t|;
      assert t == s[i..];
      assert s[i..i + |w|] == w;
      assert i + |w| == |s| || s[i + |w|] == t[|w|];
      assert OccursAt(w, s, i);
      assert IsWordAt(w, s, i);
      Some(w)
  }

  /** The first word is unique: a non-empty run of non-space characters with only whitespace
      before it and whitespace or the end after it is what `FirstWord` finds. */
  lemma FirstWordAt(w: string, s: string, i: nat)
    requires w != [] && forall k :: 0 <= k < |w| ==> !IsSpace(w[k])
    requires IsWordAt(w, s, i)
    ensures FirstWord(s) == Some(w)
  {
    assert s[i] == w[0];
    var r := FirstWord(s);
    assert r.Some? by { assert !IsSpace(s[i]); }
    var v := r.value;
    var j: nat :| IsWordAt(v, s, j);
    assert s[j] == v[0];
    assert i == j;
    WordsAtAgree(w, v, s, i);
  }

  /** Two first words at the same index coincide. */
  lemma WordsAtAgree(w: string, v: string, s: string, i: nat)
    requires w != [] && forall k :: 0 <= k < |w| ==> !IsSpace(w[k])
    requires v != [] && forall k :: 0 <= k < |v| ==> !IsSpace(v[k])
    requires IsWordAt(w, s, i) && IsWordAt(v, s, i)
    ensures w == v
  {
    forall k | i <= k < i + |v| ensures !IsSpace(s[k]) { assert s[k] == v[k - i]; }
    forall k | i <= k < i + |w| ensures !IsSpace(s[k]) { assert s[k] == w[k - i]; }
    assert |w| == |v|;
  }

  /** Python's `s.splitlines()`, except that it also yields empty lines where Python would not
      (after a final break, between the two halves of "\r\n", and for the empty string). */
  function SplitLines(s: string): (r: seq<string>)
    ensures r != []
    decreases |s|
  {
    match FirstIndex(s, IsLineBreak)
    case None => [s]
    case Some(i) => [s[..i]] + SplitLines(s[i + 1..])
  }
}
