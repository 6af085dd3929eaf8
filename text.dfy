/** Character classes and string helpers shared by the models. */
module Text {

  /** An ASCII decimal digit. */
  predicate IsDigit(c: char) {
    '0' <= c <= '9'
  }

  function DigitChar(k: int): (c: char)
    requires 0 <= k < 10
    ensures IsDigit(c) && c as int - '0' as int == k
  {
    ('0' as int + k) as char
  }

  function DigitValue(c: char): (k: int)
    requires IsDigit(c)
    ensures 0 <= k < 10 && DigitChar(k) == c
  {
    c as int - '0' as int
  }

  /** Python's whitespace: the characters for which `str.isspace()` holds,
      which are also the characters `\s` matches in a `str` pattern. */
  predicate IsSpace(c: char) {
    var n := c as int;
    (0x09 <= n <= 0x0D) || (0x1C <= n <= 0x20) || n == 0x85 || n == 0xA0 ||
    n == 0x1680 || (0x2000 <= n <= 0x200A) || n == 0x2028 || n == 0x2029 ||
    n == 0x202F || n == 0x205F || n == 0x3000
  }

  predicate AllSpace(s: string) {
    forall i :: 0 <= i < |s| ==> IsSpace(s[i])
  }

  /** Python's `s.lstrip()`: it drops the leading whitespace of `s`. */
  function LStrip(s: string): (r: string)
    ensures |r| <= |s| && r == s[|s| - |r|..]
    ensures r == [] || !IsSpace(r[0])
  {
    if s != [] && IsSpace(s[0]) then LStrip(s[1..]) else s
  }

  /** Python's `s.rstrip()`: it drops the trailing whitespace of `s`. */
  function RStrip(s: string): (r: string)
    ensures |r| <= |s| && r == s[..|r|]
    ensures r == [] || !IsSpace(r[|r| - 1])
  {
    if s != [] && IsSpace(s[|s| - 1]) then RStrip(s[..|s| - 1]) else s
  }

  /** Python's `s.strip()`: the result neither starts nor ends with whitespace. */
  function Strip(s: string): (r: string)
    ensures |r| <= |s|
    ensures r == [] || (!IsSpace(r[0]) && !IsSpace(r[|r| - 1]))
  {
    RStrip(LStrip(s))
  }

  /** Where the text `strip()` keeps begins: after what `lstrip()` drops. */
  function StripStart(s: string): nat {
    |s| - |LStrip(s)|
  }

  /** `strip()` takes only whitespace away, and only from the two ends:
      `s` is whitespace, the result, and whitespace. */
  lemma StripTrims(s: string)
    ensures StripStart(s) + |Strip(s)| <= |s|
    ensures s[StripStart(s)..StripStart(s) + |Strip(s)|] == Strip(s)
    ensures forall j :: 0 <= j < StripStart(s) ==> IsSpace(s[j])
    ensures forall j :: StripStart(s) + |Strip(s)| <= j < |s| ==> IsSpace(s[j])
  {
    LStripDrops(s);
    RStripInside(s, StripStart(s), LStrip(s), Strip(s));
  }

  /** What `lstrip()` drops is whitespace. */
  lemma {:induction false} LStripDrops(s: string)
    ensures forall j :: 0 <= j < |s| - |LStrip(s)| ==> IsSpace(s[j])
  {
    if s != [] && IsSpace(s[0]) {
      LStripDrops(s[1..]);
      forall j | 1 <= j < |s| - |LStrip(s)| ensures IsSpace(s[j]) {
        assert s[j] == s[1..][j - 1];
      }
    }
  }

  /** What `rstrip()` drops is whitespace. */
  lemma {:induction false} RStripDrops(s: string)
    ensures forall j :: |RStrip(s)| <= j < |s| ==> IsSpace(s[j])
  {
    if s != [] && IsSpace(s[|s| - 1]) {
      RStripDrops(s[..|s| - 1]);
      forall j | |RStrip(s)| <= j < |s| - 1 ensures IsSpace(s[j]) {
        assert s[j] == s[..|s| - 1][j];
      }
    }
  }

  /** `r`, the `rstrip()` of `t`, the suffix of `s` from `i`, is a contiguous
      part of `s` followed only by whitespace. */
  lemma RStripInside(s: string, i: nat, t: string, r: string)
    requires i <= |s| && t == s[i..] && r == RStrip(t)
    ensures i + |r| <= |s| && s[i..i + |r|] == r
    ensures forall j :: i + |r| <= j < |s| ==> IsSpace(s[j])
  {
    RStripDrops(t);
    assert t[..|r|] == s[i..i + |r|];
    forall j | i + |r| <= j < |s| ensures IsSpace(s[j]) {
      assert s[j] == t[j - i];
    }
  }

  /** Text that neither starts nor ends with whitespace is left as it is by `strip()`. */
  lemma StripKeeps(s: string)
    requires s == [] || (!IsSpace(s[0]) && !IsSpace(s[|s| - 1]))
    ensures Strip(s) == s
  {
    assert LStrip(s) == s;
    assert RStrip(s) == s;
  }
}
