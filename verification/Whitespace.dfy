/** What Python's `str.strip` takes off a text, and where `str.splitlines` breaks one. */
module Whitespace {
  /** Where `str.splitlines` breaks lines. */
  predicate IsSeparator(c: char) {
    c == '\n' || c == '\r' || c == '\U{0b}' || c == '\U{0c}' || '\U{1c}' <= c <= '\U{1e}' || c == '\U{85}' ||
    c == '\U{2028}' || c == '\U{2029}'
  }

  /** What `str.strip` and the pattern `\s` take for whitespace. */
  predicate IsSpace(c: char) {
    IsSeparator(c) || c == ' ' || c == '\t' || c == '\U{1f}' || c == '\U{a0}' || c == '\U{1680}' ||
    '\U{2000}' <= c <= '\U{200a}' || c == '\U{202f}' || c == '\U{205f}' || c == '\U{3000}'
  }

  predicate AllSpace(s: string) { forall c :: c in s ==> IsSpace(c) }

  function TrimStart(s: string): string {
    if s != [] && IsSpace(s[0]) then TrimStart(s[1..]) else s
  }

  function TrimEnd(s: string): string {
    if s != [] && IsSpace(s[|s| - 1]) then TrimEnd(s[..|s| - 1]) else s
  }

  function Strip(s: string): string {
    TrimEnd(TrimStart(s))
  }

  lemma {:induction false} TrimStartIs(s: string)
    ensures TrimStart(s) != [] ==> !IsSpace(TrimStart(s)[0])
    ensures |TrimStart(s)| <= |s| && TrimStart(s) == s[|s| - |TrimStart(s)|..]
    ensures AllSpace(s[..|s| - |TrimStart(s)|])
  {
    if s != [] && IsSpace(s[0]) {
      TrimStartIs(s[1..]);
    }
  }

  lemma {:induction false} TrimEndIs(s: string)
    ensures TrimEnd(s) <= s && AllSpace(s[|TrimEnd(s)|..])
    ensures TrimEnd(s) != [] ==> !IsSpace(TrimEnd(s)[|TrimEnd(s)| - 1])
  {
    if s != [] && IsSpace(s[|s| - 1]) {
      var n := |s| - 1;
      TrimEndIs(s[..n]);
      assert s[|TrimEnd(s)|..] == s[..n][|TrimEnd(s)|..] + [s[n]];
    }
  }

  lemma {:induction false} TrimEndOfPadded(s: string, spaces: string)
    requires AllSpace(spaces) && (s == [] || !IsSpace(s[|s| - 1]))
    ensures TrimEnd(s + spaces) == s
  {
    if spaces == [] {
      assert s + spaces == s;
    } else {
      var n := |spaces| - 1;
      TrimEndOfPadded(s, spaces[..n]);
      assert (s + spaces)[..|s| + n] == s + spaces[..n];
      assert spaces[n] in spaces;
    }
  }

  lemma {:induction false} TrimStartOfPadded(spaces: string, s: string)
    requires AllSpace(spaces) && (s == [] || !IsSpace(s[0]))
    ensures TrimStart(spaces + s) == s
  {
    if spaces == [] {
      assert spaces + s == s;
    } else {
      TrimStartOfPadded(spaces[1..], s);
      assert (spaces + s)[1..] == spaces[1..] + s;
      assert spaces[0] in spaces;
    }
  }

  /** A text is what is left of it between two stretches of whitespace. */
  lemma Parts(s: string) returns (lead: string, core: string, spaces: string)
    ensures s == lead + core + spaces && TrimEnd(s) == lead + core && AllSpace(lead) && AllSpace(spaces)
    ensures core == [] || (!IsSpace(core[0]) && !IsSpace(core[|core| - 1]))
  {
    hide IsSpace, TrimStart, TrimEnd, AllSpace;
    var e := TrimEnd(s);
    TrimEndIs(s);
    TrimStartIs(e);
    core := TrimStart(e);
    lead, spaces := e[..|e| - |core|], s[|e|..];
  }

  /** Trimming an end first changes nothing of what is left in between. */
  lemma StripOfTrimmed(s: string)
    ensures Strip(TrimEnd(s)) == Strip(s)
  {
    hide *;
    var lead, core, spaces := Parts(s);
    if core == [] {
      assert lead + core == lead && lead + core + spaces == lead + spaces;
      StripOfSpaces(lead, spaces);
    } else {
      StripOfCore(lead, core, spaces);
    }
  }

  lemma StripOfSpaces(a: string, b: string)
    requires AllSpace(a) && AllSpace(b)
    ensures Strip(a) == "" && Strip(a + b) == ""
  {
    hide IsSpace;
    assert forall c :: c in a + b ==> c in a || c in b;
    TrimStartOfPadded(a, []);
    TrimStartOfPadded(a + b, []);
    assert a + [] == a && (a + b) + [] == a + b;
  }

  lemma StripOfCore(lead: string, core: string, spaces: string)
    requires AllSpace(lead) && AllSpace(spaces)
    requires core != [] && !IsSpace(core[0]) && !IsSpace(core[|core| - 1])
    ensures Strip(lead + core) == core && Strip(lead + core + spaces) == core
  {
    hide IsSpace;
    TrimStartOfPadded(lead, core);
    TrimEndOfPadded(core, []);
    assert core + [] == core;
    assert lead + core + spaces == lead + (core + spaces);
    TrimStartOfPadded(lead, core + spaces);
    TrimEndOfPadded(core, spaces);
  }

  lemma StripWithin(s: string)
    ensures forall c :: c in Strip(s) ==> c in s
  {
    TrimStartIs(s);
    TrimEndIs(TrimStart(s));
  }

  lemma StripExactly(s: string)
    ensures |Strip(s)| <= |s|
    ensures Strip(s) == s <==> s == [] || (!IsSpace(s[0]) && !IsSpace(s[|s| - 1]))
  {
    TrimStartIs(s);
    TrimEndIs(TrimStart(s));
    if s != [] && !IsSpace(s[0]) {
      assert TrimStart(s) == s;
    }
  }

  lemma StripTwice(s: string)
    ensures Strip(Strip(s)) == Strip(s)
  {
    hide IsSpace;
    TrimStartIs(s);
    TrimEndIs(TrimStart(s));
    StripExactly(Strip(s));
  }

  /** The characters themselves, by their codes. */
  lemma SpacesExactly(c: char)
    ensures IsSeparator(c) <==> c as int in {10, 11, 12, 13, 28, 29, 30, 133, 8232, 8233}
    ensures IsSpace(c) <==> || c as int in {9, 10, 11, 12, 13, 28, 29, 30, 31, 32, 133, 160, 5760}
                            || 8192 <= c as int <= 8202 || c as int in {8232, 8233, 8239, 8287, 12288}
  {
  }
}
