/**
 * The text operations the resolver applies to option values: `int()` on a
 * port number, `strip().lower() == 'true'` on a completeness flag, and
 * `replace(" ", "_")` on a prompted participant name.
 */
module Text {
  import opened Values

  // ---------------------------------------------------------------------
  // Decimal literals (`int(s)` restricted to plain ASCII digits)
  // ---------------------------------------------------------------------

  predicate IsDigit(c: char) { '0' <= c <= '9' }

  predicate AllDigits(s: string)
  {
    forall i :: 0 <= i < |s| ==> IsDigit(s[i])
  }

  function DigitValue(c: char): nat
    requires IsDigit(c)
  {
    c as int - '0' as int
  }

  function DigitChar(d: nat): char
    requires d < 10
  {
    ('0' as int + d) as char
  }

  /**
   * Reads a decimal literal, most significant digit first. The empty text
   * and any text holding a non-digit are rejected.
   */
  function ParseDecimal(s: string): (r: Option<nat>)
    ensures r.Some? <==> s != [] && AllDigits(s)
  {
    if s == [] || !IsDigit(s[|s| - 1]) then None
    else if |s| == 1 then Some(DigitValue(s[0]))
    else
      match ParseDecimal(s[..|s| - 1])
      case None => None
      case Some(n) => Some(10 * n + DigitValue(s[|s| - 1]))
  }

  /** The shortest decimal literal of `n`: digits only, no superfluous leading zero. */
  function ToDecimal(n: nat): (r: string)
    ensures r != [] && AllDigits(r)
    ensures |r| > 1 ==> r[0] != '0'
  {
    if n < 10 then [DigitChar(n)] else ToDecimal(n / 10) + [DigitChar(n % 10)]
  }

  /** Reading back the literal of a number gives the number. */
  lemma {:induction false} ParseToDecimal(n: nat)
    ensures ParseDecimal(ToDecimal(n)) == Some(n)
  {
    if n >= 10 {
      ParseToDecimal(n / 10);
      var s := ToDecimal(n);
      assert s[..|s| - 1] == ToDecimal(n / 10);
    }
  }

  /** A literal without a superfluous leading zero is the literal of the number it reads as. */
  lemma {:induction false} ToDecimalOfParse(s: string)
    requires s != [] && AllDigits(s)
    requires |s| > 1 ==> s[0] != '0'
    ensures ParseDecimal(s).Some? && ToDecimal(ParseDecimal(s).value) == s
  {
    if |s| == 1 {
      assert ToDecimal(DigitValue(s[0])) == [s[0]];
    } else {
      var p := s[..|s| - 1];
      assert p[0] == s[0];
      assert AllDigits(p) by {
        forall i | 0 <= i < |p| ensures IsDigit(p[i]) { assert p[i] == s[i]; }
      }
      ToDecimalOfParse(p);
      var m := ParseDecimal(p).value;
      assert ToDecimal(0) == "0";
      assert m != 0;
      var d := DigitValue(s[|s| - 1]);
      assert ParseDecimal(s).value == 10 * m + d;
      assert (10 * m + d) / 10 == m && (10 * m + d) % 10 == d;
      assert s == p + [s[|s| - 1]];
    }
  }

  /** A leading zero does not change the number a literal reads as (`int("080") == 80`). */
  lemma {:induction false} LeadingZero(s: string)
    requires s != [] && AllDigits(s)
    ensures ParseDecimal("0" + s) == ParseDecimal(s)
  {
    var t := "0" + s;
    assert t[|t| - 1] == s[|s| - 1];
    if |s| == 1 {
      assert t[..|t| - 1] == "0";
    } else {
      var p := s[..|s| - 1];
      assert t[..|t| - 1] == "0" + p;
      assert AllDigits(p) by {
        forall i | 0 <= i < |p| ensures IsDigit(p[i]) { assert p[i] == s[i]; }
      }
      LeadingZero(p);
    }
  }

  // ---------------------------------------------------------------------
  // strip(), lower() and the text-to-boolean converter
  // ---------------------------------------------------------------------

  /** The characters Python's `str.isspace` accepts, and so `str.strip()` removes. */
  predicate IsSpace(c: char)
  {
    var k := c as int;
    || 9 <= k <= 13 || 28 <= k <= 32 || k == 0x85 || k == 0xA0 || k == 0x1680
    || 0x2000 <= k <= 0x200A || k == 0x2028 || k == 0x2029 || k == 0x202F
    || k == 0x205F || k == 0x3000
  }

  predicate AllSpace(s: string)
  {
    forall i :: 0 <= i < |s| ==> IsSpace(s[i])
  }

  /** Drops the leading whitespace: what is left is a suffix starting with a non-space. */
  function StripLeft(s: string): (r: string)
    ensures |r| <= |s| && r == s[|s| - |r|..]
    ensures AllSpace(s[..|s| - |r|])
    ensures r != [] ==> !IsSpace(r[0])
  {
    if s != [] && IsSpace(s[0]) then
      var r := StripLeft(s[1..]);
      assert s[..|s| - |r|] == [s[0]] + s[1..][..|s[1..]| - |r|];
      r
    else s
  }

  /** Drops the trailing whitespace: what is left is a prefix ending with a non-space. */
  function StripRight(s: string): (r: string)
    ensures |r| <= |s| && r == s[..|r|]
    ensures AllSpace(s[|r|..])
    ensures r != [] ==> !IsSpace(r[|r| - 1])
  {
    if s != [] && IsSpace(s[|s| - 1]) then
      var r := StripRight(s[..|s| - 1]);
      assert s[|r|..] == s[..|s| - 1][|r|..] + [s[|s| - 1]];
      r
    else s
  }

  /** A suffix `l` of `s` and a prefix `r` of `l` split `s` into three parts. */
  lemma SplitAround(s: string, l: string, r: string)
    requires |l| <= |s| && l == s[|s| - |l|..]
    requires |r| <= |l| && r == l[..|r|]
    ensures s == s[..|s| - |l|] + r + l[|r|..]
  {
    assert s == s[..|s| - |l|] + l;
    assert l == r + l[|r|..];
  }

  /** Drops whitespace at both ends: `s` is what is left with only whitespace before and after it. */
  function Strip(s: string): (r: string)
    ensures exists pre, post :: AllSpace(pre) && AllSpace(post) && s == pre + r + post
  {
    var l := StripLeft(s);
    var r := StripRight(l);
    var pre, post := s[..|s| - |l|], l[|r|..];
    SplitAround(s, l, r);
    assert AllSpace(pre) && AllSpace(post) && s == pre + r + post;
    r
  }

  /** Nothing strippable is left: the stripped text starts and ends with a non-space. */
  lemma StripEnds(s: string)
    ensures Strip(s) != [] ==> !IsSpace(Strip(s)[0]) && !IsSpace(Strip(s)[|Strip(s)| - 1])
  {
    var l := StripLeft(s);
    var r := StripRight(l);
    assert Strip(s) == r;
    if r != [] {
      assert r[0] == l[0];
    }
  }

  function LowerChar(c: char): char
  {
    if 'A' <= c <= 'Z' then (c as int + 32) as char else c
  }

  /** Lowers every ASCII capital and keeps every other character: no ASCII capital remains. */
  function Lower(s: string): (r: string)
    ensures |r| == |s|
    ensures forall i :: 0 <= i < |s| ==> !('A' <= r[i] <= 'Z')
    ensures forall i :: 0 <= i < |s| && !('A' <= s[i] <= 'Z') ==> r[i] == s[i]
    ensures forall i :: 0 <= i < |s| && 'A' <= s[i] <= 'Z' ==> r[i] as int == s[i] as int + 32
  {
    seq(|s|, i requires 0 <= i < |s| => LowerChar(s[i]))
  }

  /** The word `true` in any mix of upper and lower case. */
  predicate IsTrueWord(w: string)
  {
    |w| == 4 && Lower(w) == "true"
  }

  /** `s` is the word `true`, in any case, with only whitespace around it. */
  predicate PaddedTrue(s: string)
  {
    exists i, j :: 0 <= i <= j <= |s| && AllSpace(s[..i]) && AllSpace(s[j..]) && IsTrueWord(s[i..j])
  }

  /** Leading whitespace in front of a non-space is exactly what the left strip removes. */
  lemma StripLeftPadded(pre: string, rest: string)
    requires AllSpace(pre)
    requires rest != [] && !IsSpace(rest[0])
    ensures StripLeft(pre + rest) == rest
  {
    var s := pre + rest;
    var l := StripLeft(s);
    var cut := |s| - |l|;
    forall k | 0 <= k < cut ensures IsSpace(s[k]) { assert s[..cut][k] == s[k]; }
    assert !IsSpace(s[|pre|]);
    assert cut <= |pre|;
    forall k | 0 <= k < |pre| ensures IsSpace(s[k]) { assert s[k] == pre[k]; }
    assert l[0] == s[cut];
    assert cut == |pre|;
  }

  /** Trailing whitespace after a non-space is exactly what the right strip removes. */
  lemma StripRightPadded(rest: string, post: string)
    requires AllSpace(post)
    requires rest != [] && !IsSpace(rest[|rest| - 1])
    ensures StripRight(rest + post) == rest
  {
    var s := rest + post;
    var r := StripRight(s);
    forall k | |r| <= k < |s| ensures IsSpace(s[k]) { assert s[|r|..][k - |r|] == s[k]; }
    assert !IsSpace(s[|rest| - 1]);
    assert |rest| <= |r|;
    forall k | |rest| <= k < |s| ensures IsSpace(s[k]) { assert s[k] == post[k - |rest|]; }
    assert r[|r| - 1] == s[|r| - 1];
    assert |r| == |rest|;
  }

  /** Stripping whitespace padding gives back a core that starts and ends with a non-space. */
  lemma StripPadded(pre: string, core: string, post: string)
    requires AllSpace(pre) && AllSpace(post)
    requires core != [] && !IsSpace(core[0]) && !IsSpace(core[|core| - 1])
    ensures Strip(pre + core + post) == core
  {
    assert pre + core + post == pre + (core + post);
    StripLeftPadded(pre, core + post);
    StripRightPadded(core, post);
  }

  /** Text whose stripped, lowered form is `true` is the word `true`, in any case, padded with whitespace. */
  lemma StrippedTrueIsPadded(s: string)
    requires Lower(Strip(s)) == "true"
    ensures PaddedTrue(s)
  {
    var w := Strip(s);
    var pre, post :| AllSpace(pre) && AllSpace(post) && s == pre + w + post;
    var i, j := |pre|, |pre| + |w|;
    assert s[..i] == pre && s[i..j] == w && s[j..] == post;
    assert IsTrueWord(s[i..j]);
  }

  /** The word `true`, in any case and with any whitespace around it, strips and lowers to `true`. */
  lemma PaddedIsStrippedTrue(s: string)
    requires PaddedTrue(s)
    ensures Lower(Strip(s)) == "true"
  {
    var i, j :| 0 <= i <= j <= |s| && AllSpace(s[..i]) && AllSpace(s[j..]) && IsTrueWord(s[i..j]);
    var w := s[i..j];
    assert !IsSpace(w[0]) && !IsSpace(w[3]) by {
      assert Lower(w)[0] == 't' && Lower(w)[3] == 'e';
    }
    assert s == s[..i] + w + s[j..];
    StripPadded(s[..i], w, s[j..]);
  }

  /**
   * The converter of the coercion table for `get_info`,
   * `x.strip().lower() == 'true'`: true exactly on the word `true`, in any
   * case, with only whitespace around it.
   */
  function ParseBool(s: string): (r: bool)
    ensures r <==> PaddedTrue(s)
  {
    var b := Lower(Strip(s)) == "true";
    assert b ==> PaddedTrue(s) by {
      if b { StrippedTrueIsPadded(s); }
    }
    assert PaddedTrue(s) ==> b by {
      if PaddedTrue(s) { PaddedIsStrippedTrue(s); }
    }
    b
  }

  // ---------------------------------------------------------------------
  // replace(" ", "_")
  // ---------------------------------------------------------------------

  /** Every space becomes an underscore; every other character is kept in place. */
  function ReplaceSpaces(s: string): (r: string)
    ensures |r| == |s|
    ensures forall i :: 0 <= i < |s| ==> r[i] == (if s[i] == ' ' then '_' else s[i])
    ensures ' ' !in r
  {
    if s == [] then [] else [if s[0] == ' ' then '_' else s[0]] + ReplaceSpaces(s[1..])
  }

  /** A valid port literal, the same with a leading zero, and two rejected ones. */
  lemma PortLiteralExamples()
    ensures ParseDecimal("57890") == Some(57890)
    ensures ParseDecimal("057890") == Some(57890)
    ensures ParseDecimal("abc") == None
    ensures ParseDecimal("") == None
  {
    assert ParseDecimal("5") == Some(5);
    assert "57"[..1] == "5";
    assert ParseDecimal("57") == Some(57);
    assert "578"[..2] == "57";
    assert ParseDecimal("578") == Some(578);
    assert "5789"[..3] == "578";
    assert ParseDecimal("5789") == Some(5789);
    assert "57890"[..4] == "5789";
    LeadingZero("57890");
    assert "0" + "57890" == "057890";
  }
}
