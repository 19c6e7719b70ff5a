/**
  Python's `str.strip()` with no argument: removal of leading and trailing
  whitespace, where whitespace is what `str.isspace()` accepts.
 */
module Text {

  /** The characters `str.isspace()` is true of. */
  predicate IsSpace(c: char)
  {
    '\t' <= c <= '\r' || '\U{1c}' <= c <= '\U{1f}' || c == ' ' ||
    c == '\U{85}' || c == '\U{a0}' || c == '\U{1680}' || '\U{2000}' <= c <= '\U{200a}' ||
    c == '\U{2028}' || c == '\U{2029}' || c == '\U{202f}' || c == '\U{205f}' || c == '\U{3000}'
  }

  /** True when `s` neither starts nor ends with whitespace. */
  predicate Stripped(s: string)
  {
    s == [] || (!IsSpace(s[0]) && !IsSpace(s[|s| - 1]))
  }

  /** `s.lstrip()`: the suffix of `s` left after dropping its leading whitespace. */
  function TrimStart(s: string): (r: string)
    ensures |r| <= |s|
    ensures r == [] || !IsSpace(r[0])
  {
    if s != [] && IsSpace(s[0]) then TrimStart(s[1..]) else s
  }

  /** `s.rstrip()`: the prefix of `s` left after dropping its trailing whitespace. */
  function TrimEnd(s: string): (r: string)
    ensures |r| <= |s| && r == s[..|r|]
    ensures r == [] || !IsSpace(r[|r| - 1])
  {
    if s != [] && IsSpace(s[|s| - 1]) then TrimEnd(s[..|s| - 1]) else s
  }

  /** `s.strip()`. */
  function Trim(s: string): (r: string)
  {
    TrimEnd(TrimStart(s))
  }

  /** What lstrip drops is whitespace, and what it keeps is the rest of `s`. */
  lemma {:induction false} TrimStartDropsSpace(s: string)
    ensures var r := TrimStart(s);
      r == s[|s| - |r|..] && forall k | 0 <= k < |s| - |r| :: IsSpace(s[k])
  {
    if s != [] && IsSpace(s[0]) {
      TrimStartDropsSpace(s[1..]);
    }
  }

  /** What rstrip drops is whitespace. */
  lemma {:induction false} TrimEndDropsSpace(s: string)
    ensures var r := TrimEnd(s); forall k | |r| <= k < |s| :: IsSpace(s[k])
  {
    if s != [] && IsSpace(s[|s| - 1]) {
      TrimEndDropsSpace(s[..|s| - 1]);
    }
  }

  /**
    `r` is what remains of `s` once a run of leading and a run of trailing
    whitespace are removed, and no whitespace is left at either end of it.
   */
  predicate StrippedFrom(r: string, s: string)
  {
    Stripped(r) &&
    exists i, j | 0 <= i <= j <= |s| ::
      r == s[i..j] && (forall k | 0 <= k < i :: IsSpace(s[k])) && (forall k | j <= k < |s| :: IsSpace(s[k]))
  }

  /**
    What strip leaves is the part of `s` between a run of leading and a run of
    trailing whitespace, has no whitespace at either end, and is no longer than
    its input. These determine it: only one slice of `s` has all three.
   */
  lemma {:induction false} TrimIsStripped(s: string)
    ensures Stripped(Trim(s)) && |Trim(s)| <= |s|
    ensures StrippedFrom(Trim(s), s)
  {
    var t := TrimStart(s);
    var r := TrimEnd(t);
    if r != [] {
      assert r[0] == t[0];
    }
    TrimStartDropsSpace(s);
    TrimEndDropsSpace(t);
    var i := |s| - |t|;
    var j := i + |r|;
    assert r == s[i..j];
    assert forall k | j <= k < |s| :: s[k] == t[k - i];
  }

  /** Stripping a string that has no surrounding whitespace changes nothing. */
  lemma TrimStrippedIsIdentity(s: string)
    requires Stripped(s)
    ensures Trim(s) == s
  {
  }

  /** Stripping twice is stripping once. */
  lemma {:induction false} TrimIdempotent(s: string)
    ensures Trim(Trim(s)) == Trim(s)
  {
    TrimIsStripped(s);
    TrimStrippedIsIdentity(Trim(s));
  }
}
