/**
 * The Python string operations the transformer relies on: `str.strip()`,
 * `str.upper()` and `str.zfill(width)`.
 */
module Text {

  /** The characters for which Python's `str.isspace()` holds; `str.strip()` removes exactly these. */
  predicate IsSpace(c: char) {
    || c == ' '
    || '\t' <= c <= '\r'
    || '\U{1c}' <= c <= '\U{1f}'
    || c == '\U{85}' || c == '\U{a0}' || c == '\U{1680}'
    || '\U{2000}' <= c <= '\U{200a}'
    || c == '\U{2028}' || c == '\U{2029}' || c == '\U{202f}' || c == '\U{205f}' || c == '\U{3000}'
  }

  predicate AllSpace(s: string) {
    forall i :: 0 <= i < |s| ==> IsSpace(s[i])
  }

  /** `s` with its leading whitespace removed. */
  function TrimStart(s: string): string {
    if s != [] && IsSpace(s[0]) then TrimStart(s[1..]) else s
  }

  /** `s` with its trailing whitespace removed. */
  function TrimEnd(s: string): string {
    if s != [] && IsSpace(s[|s| - 1]) then TrimEnd(s[..|s| - 1]) else s
  }

  /** Trimming the front drops a run of whitespace and stops at the first other character. */
  lemma {:induction false} TrimStartMeaning(s: string)
    ensures var r := TrimStart(s);
      |r| <= |s| && r == s[|s| - |r|..] && AllSpace(s[..|s| - |r|]) && (r != [] ==> !IsSpace(r[0]))
  {
    if s != [] && IsSpace(s[0]) {
      TrimStartMeaning(s[1..]);
      var r := TrimStart(s[1..]);
      assert s[..|s| - |r|] == [s[0]] + s[1..][..|s[1..]| - |r|];
    }
  }

  /** Trimming the back drops a run of whitespace and stops at the last other character. */
  lemma {:induction false} TrimEndMeaning(s: string)
    ensures var r := TrimEnd(s);
      |r| <= |s| && r == s[..|r|] && AllSpace(s[|r|..]) && (r != [] ==> !IsSpace(r[|r| - 1]))
  {
    if s != [] && IsSpace(s[|s| - 1]) {
      TrimEndMeaning(s[..|s| - 1]);
      var r := TrimEnd(s[..|s| - 1]);
      assert s[|r|..] == s[..|s| - 1][|r|..] + [s[|s| - 1]];
    }
  }

  /** Python's `s.strip()`: the text between the leading and the trailing whitespace. */
  function Strip(s: string): (r: string)
    ensures |r| <= |s|
    ensures r != [] ==> !IsSpace(r[0]) && !IsSpace(r[|r| - 1])
    ensures AllSpace(s) <==> r == []
  {
    TrimStartMeaning(s);
    TrimEndMeaning(TrimStart(s));
    TrimEnd(TrimStart(s))
  }

  /** Stripping undoes padding with whitespace on either side, whatever the padding is. */
  lemma {:induction false} StripUnpads(before: string, core: string, after: string)
    requires AllSpace(before) && AllSpace(after)
    requires core != [] ==> !IsSpace(core[0]) && !IsSpace(core[|core| - 1])
    ensures Strip(before + core + after) == core
  {
    var s := before + core + after;
    if core == [] {
      assert AllSpace(s);
    } else {
      TrimStartOfPadded(before, core + after);
      assert TrimStart(s) == core + after by { assert s == before + (core + after); }
      TrimEndOfPadded(core, after);
    }
  }

  lemma {:induction false} TrimStartOfPadded(pad: string, rest: string)
    requires AllSpace(pad)
    requires rest != [] ==> !IsSpace(rest[0])
    ensures TrimStart(pad + rest) == rest
  {
    if pad != [] {
      assert (pad + rest)[1..] == pad[1..] + rest;
      TrimStartOfPadded(pad[1..], rest);
    } else {
      assert pad + rest == rest;
    }
  }

  lemma {:induction false} TrimEndOfPadded(rest: string, pad: string)
    requires AllSpace(pad)
    requires rest != [] ==> !IsSpace(rest[|rest| - 1])
    ensures TrimEnd(rest + pad) == rest
  {
    if pad != [] {
      assert (rest + pad)[..|rest + pad| - 1] == rest + pad[..|pad| - 1];
      TrimEndOfPadded(rest, pad[..|pad| - 1]);
    } else {
      assert rest + pad == rest;
    }
  }

  /** Stripping twice is stripping once. */
  lemma StripIdempotent(s: string)
    ensures Strip(Strip(s)) == Strip(s)
  {
    StripUnpads([], Strip(s), []);
    assert [] + Strip(s) + [] == Strip(s);
  }

  predicate IsLowerLetter(c: char) {
    'a' <= c <= 'z'
  }

  /** `c` and `d` are the same letter in either case, or the same character. */
  predicate SameIgnoringCase(c: char, d: char) {
    c == d || (IsLowerLetter(c) && d as int == c as int - 32) || (IsLowerLetter(d) && c as int == d as int - 32)
  }

  /** Python's `c.upper()` on the ASCII letters; every other character is left as it is. */
  function UpperChar(c: char): char {
    if IsLowerLetter(c) then (c as int - 32) as char else c
  }

  /**
   * Python's `s.upper()`: the same characters up to case, with no lower-case letter left. Those
   * two facts fix the result character by character.
   */
  function Upper(s: string): (r: string)
    ensures |r| == |s|
    ensures forall i :: 0 <= i < |r| ==> !IsLowerLetter(r[i])
    ensures forall i :: 0 <= i < |s| ==> SameIgnoringCase(s[i], r[i])
  {
    seq(|s|, i requires 0 <= i < |s| => UpperChar(s[i]))
  }

  /** Upper-casing an upper-cased string changes nothing, so matching against upper-cased keys ignores case. */
  lemma UpperIdempotent(s: string)
    ensures Upper(Upper(s)) == Upper(s)
  {
  }

  /** Two strings upper-case to the same string exactly when they differ only in the case of letters. */
  lemma UpperEqualIff(a: string, b: string)
    ensures Upper(a) == Upper(b) <==> |a| == |b| && forall i :: 0 <= i < |a| ==> SameIgnoringCase(a[i], b[i])
  {
    if |a| == |b| && forall i :: 0 <= i < |a| ==> SameIgnoringCase(a[i], b[i]) {
      forall i | 0 <= i < |a|
        ensures Upper(a)[i] == Upper(b)[i]
      {
        UpperCharSame(a[i], b[i]);
      }
    }
    if Upper(a) == Upper(b) {
      forall i | 0 <= i < |a|
        ensures SameIgnoringCase(a[i], b[i])
      {
        assert Upper(a)[i] == Upper(b)[i];
        UpperCharSame(a[i], b[i]);
      }
    }
  }

  lemma UpperCharSame(c: char, d: char)
    ensures UpperChar(c) == UpperChar(d) <==> SameIgnoringCase(c, d)
  {
  }

  function Zeros(n: nat): (r: string)
    ensures |r| == n && forall i :: 0 <= i < n ==> r[i] == '0'
  {
    seq(n, _ => '0')
  }

  /**
   * Python's `s.zfill(width)`: strings already `width` long or longer come back unchanged;
   * shorter ones get zeros on the left, after a leading '+' or '-' sign if there is one.
   */
  function ZFill(s: string, width: nat): (r: string)
    ensures |r| == if |s| >= width then |s| else width
    ensures |s| >= width ==> r == s
  {
    if |s| >= width then s
    else if s != [] && (s[0] == '+' || s[0] == '-') then [s[0]] + Zeros(width - |s|) + s[1..]
    else Zeros(width - |s|) + s
  }
}
