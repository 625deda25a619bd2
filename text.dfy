/**
 * The few pieces of Ruby's String and Regexp behaviour that the converter
 * relies on: the `\s` and `\d` character classes, String#strip,
 * String#sub with a literal pattern and an empty replacement, and
 * String#to_i on a run of decimal digits.
 */
module Text {
  import opened Wrappers

  /** Ruby's `\s` in a regular expression: space, tab, line feed, vertical tab, form feed, carriage return. */
  predicate IsRegexSpace(c: char) {
    c == ' ' || c == '\t' || c == '\n' || c == '\U{0B}' || c == '\U{0C}' || c == '\r'
  }

  /** The characters String#strip removes: those of `\s` and NUL. */
  predicate IsStripSpace(c: char) {
    c == '\0' || IsRegexSpace(c)
  }

  /** Ruby's `\d`, which only matches ASCII digits. */
  predicate IsDigit(c: char) {
    '0' <= c <= '9'
  }

  predicate AllDigits(s: string) {
    forall k :: 0 <= k < |s| ==> IsDigit(s[k])
  }

  predicate AllStripSpace(s: string) {
    forall k :: 0 <= k < |s| ==> IsStripSpace(s[k])
  }

  /** No occurrence of `c` in `s`. */
  predicate Lacks(s: string, c: char) {
    forall k :: 0 <= k < |s| ==> s[k] != c
  }

  /** Regexp `.` matches every character except a line feed. */
  predicate NoNewline(s: string) {
    Lacks(s, '\n')
  }

  /** No leading or trailing character that String#strip would remove. */
  predicate Stripped(s: string) {
    s == [] || (!IsStripSpace(s[0]) && !IsStripSpace(s[|s| - 1]))
  }

  // ---------------------------------------------------------------- strip

  /** String#lstrip */
  function StripLeft(s: string): (r: string)
    ensures |r| <= |s| && r == s[|s| - |r|..]
    ensures AllStripSpace(s[..|s| - |r|])
    ensures r == [] || !IsStripSpace(r[0])
  {
    if s != [] && IsStripSpace(s[0]) then
      var r := StripLeft(s[1..]);
      LeftStep(s, r);
      r
    else s
  }

  /** String#rstrip */
  function StripRight(s: string): (r: string)
    ensures |r| <= |s| && r == s[..|r|]
    ensures AllStripSpace(s[|r|..])
    ensures r == [] || !IsStripSpace(r[|r| - 1])
  {
    if s != [] && IsStripSpace(s[|s| - 1]) then
      var r := StripRight(s[..|s| - 1]);
      RightStep(s, r);
      r
    else s
  }

  /** Cutting one more blank off the front keeps the rest a suffix behind blanks. */
  lemma LeftStep(s: string, r: string)
    requires s != [] && IsStripSpace(s[0])
    requires |r| <= |s| - 1 && r == s[1..][|s| - 1 - |r|..] && AllStripSpace(s[1..][..|s| - 1 - |r|])
    ensures r == s[|s| - |r|..] && AllStripSpace(s[..|s| - |r|])
  {
    assert s[1..][|s| - 1 - |r|..] == s[|s| - |r|..];
    assert s[..|s| - |r|] == [s[0]] + s[1..][..|s| - 1 - |r|];
  }

  /** Cutting one more blank off the back keeps the rest a prefix before blanks. */
  lemma RightStep(s: string, r: string)
    requires s != [] && IsStripSpace(s[|s| - 1])
    requires |r| <= |s| - 1 && r == s[..|s| - 1][..|r|] && AllStripSpace(s[..|s| - 1][|r|..])
    ensures r == s[..|r|] && AllStripSpace(s[|r|..])
  {
    assert s[..|s| - 1][..|r|] == s[..|r|];
    assert s[|r|..] == s[..|s| - 1][|r|..] + [s[|s| - 1]];
  }

  /** `r` sits in `s` at index `i` with only strip-space before and after it. */
  predicate StripsTo(s: string, i: int, r: string) {
    0 <= i <= |s| - |r| && s[i..i + |r|] == r && AllStripSpace(s[..i]) && AllStripSpace(s[i + |r|..])
  }

  /** String#strip: the text between the leading and the trailing whitespace. */
  function Strip(s: string): (r: string)
    ensures Stripped(r)
    ensures exists i :: StripsTo(s, i, r)
  {
    var l := StripLeft(s);
    var r := StripRight(l);
    StripParts(s, l, r);
    r
  }

  /** A left part of a right part of `s`, each cut off only blanks, sits in `s` between blanks. */
  lemma StripParts(s: string, l: string, r: string)
    requires |l| <= |s| && l == s[|s| - |l|..] && AllStripSpace(s[..|s| - |l|])
    requires l == [] || !IsStripSpace(l[0])
    requires |r| <= |l| && r == l[..|r|] && AllStripSpace(l[|r|..])
    requires r == [] || !IsStripSpace(r[|r| - 1])
    ensures Stripped(r)
    ensures exists i :: StripsTo(s, i, r)
  {
    var i := |s| - |l|;
    assert s[i..i + |r|] == r;
    assert s[i + |r|..] == l[|r|..];
    if r != [] {
      assert r[0] == l[0];
    }
    assert StripsTo(s, i, r);
  }

  /** Whatever whitespace surrounds a text with no whitespace at either end, strip gives the text back. */
  lemma {:induction false} StripPadded(lead: string, t: string, trail: string)
    requires AllStripSpace(lead) && AllStripSpace(trail)
    requires Stripped(t)
    ensures Strip(lead + t + trail) == t
  {
    var s := lead + t + trail;
    if t == [] {
      AllStripSpaceConcat(lead, trail);
      assert s == (lead + trail) + [];
      StripLeftPadded(lead + trail, []);
      assert StripLeft(s) == [];
    } else {
      assert (t + trail)[0] == t[0];
      assert s == lead + (t + trail);
      StripLeftPadded(lead, t + trail);
      StripRightPadded(t, trail);
    }
  }

  lemma AllStripSpaceConcat(a: string, b: string)
    requires AllStripSpace(a) && AllStripSpace(b)
    ensures AllStripSpace(a + b)
  {
    forall k | 0 <= k < |a + b| ensures IsStripSpace((a + b)[k]) {
      if k >= |a| {
        assert (a + b)[k] == b[k - |a|];
      }
    }
  }

  lemma {:induction false} StripLeftPadded(lead: string, u: string)
    requires AllStripSpace(lead)
    requires u == [] || !IsStripSpace(u[0])
    ensures StripLeft(lead + u) == u
    decreases |lead|
  {
    if lead != [] {
      assert (lead + u)[1..] == lead[1..] + u;
      StripLeftPadded(lead[1..], u);
    } else {
      assert lead + u == u;
    }
  }

  lemma {:induction false} StripRightPadded(t: string, trail: string)
    requires AllStripSpace(trail)
    requires t == [] || !IsStripSpace(t[|t| - 1])
    ensures StripRight(t + trail) == t
    decreases |trail|
  {
    if trail != [] {
      assert (t + trail)[..|t + trail| - 1] == t + trail[..|trail| - 1];
      StripRightPadded(t, trail[..|trail| - 1]);
    } else {
      assert t + trail == t;
      if t != [] {
        assert !IsStripSpace(t[|t| - 1]);
      }
    }
  }

  /** Stripping twice strips nothing more. */
  lemma StripIdempotent(s: string)
    ensures Strip(Strip(s)) == Strip(s)
  {
    StripBare(Strip(s));
  }

  /** A text with no strip-space at either end is its own strip. */
  lemma StripBare(t: string)
    requires Stripped(t)
    ensures Strip(t) == t
  {
    assert StripLeft(t) == t;
    assert StripRight(t) == t;
  }

  // ------------------------------------------------------------------ sub

  /** The literal pattern `p` occurs in `s` at index `k`. */
  predicate OccursAt(s: string, p: string, k: nat) {
    k + |p| <= |s| && s[k..k + |p|] == p
  }

  /** The first index at or after `from` where `p` occurs. */
  function FirstOccurrence(s: string, p: string, from: nat): (r: Option<nat>)
    ensures r.Some? ==> from <= r.value && OccursAt(s, p, r.value)
    ensures r.Some? ==> forall k :: from <= k < r.value ==> !OccursAt(s, p, k)
    ensures r.None? ==> forall k :: from <= k ==> !OccursAt(s, p, k)
    decreases |s| - from
  {
    if from + |p| > |s| then None
    else if OccursAt(s, p, from) then Some(from)
    else FirstOccurrence(s, p, from + 1)
  }

  /**
   * `s.sub(p, '')` with a String pattern: the first occurrence of `p` is
   * removed, wherever it is; without one, `s` is returned unchanged.
   */
  function RemoveFirst(s: string, p: string): (r: string)
    ensures (forall k :: !OccursAt(s, p, k)) ==> r == s
    ensures forall k: nat :: OccursAt(s, p, k) && (forall j: nat :: j < k ==> !OccursAt(s, p, j)) ==>
      r == s[..k] + s[k + |p|..]
  {
    match FirstOccurrence(s, p, 0)
    case None => s
    case Some(k) => s[..k] + s[k + |p|..]
  }

  /** Putting the pattern back where it was removed restores the string. */
  lemma RemoveFirstRestores(s: string, p: string, k: nat)
    requires OccursAt(s, p, k) && forall j: nat :: j < k ==> !OccursAt(s, p, j)
    ensures RemoveFirst(s, p)[..k] + p + RemoveFirst(s, p)[k..] == s
  {
    Reassemble(s, p, k, RemoveFirst(s, p));
  }

  lemma Reassemble(s: string, p: string, k: nat, r: string)
    requires k + |p| <= |s| && s[k..k + |p|] == p
    requires r == s[..k] + s[k + |p|..]
    ensures r[..k] + p + r[k..] == s
  {
    assert r[..k] == s[..k] && r[k..] == s[k + |p|..];
    assert s == s[..k] + s[k..k + |p|] + s[k + |p|..];
  }

  /** A pattern that starts the string is removed from the front. */
  lemma RemoveFirstLeading(s: string, p: string)
    requires |p| <= |s| && s[..|p|] == p
    ensures RemoveFirst(s, p) == s[|p|..]
  {
    assert OccursAt(s, p, 0);
  }

  /** Removing the empty pattern changes nothing. */
  lemma RemoveFirstEmpty(s: string)
    ensures RemoveFirst(s, "") == s
  {
    assert OccursAt(s, "", 0);
  }

  // ----------------------------------------------------------------- to_i

  function DigitValue(c: char): (v: nat)
    requires IsDigit(c)
    ensures v < 10
  {
    c as int - '0' as int
  }

  function DigitChar(v: nat): (c: char)
    requires v < 10
    ensures IsDigit(c) && DigitValue(c) == v
  {
    ('0' as int + v) as char
  }

  /** String#to_i on a string of decimal digits: zero exactly when every digit is `0`. */
  function DecimalValue(ds: string): (v: nat)
    requires AllDigits(ds)
    ensures v == 0 <==> forall k :: 0 <= k < |ds| ==> ds[k] == '0'
  {
    if ds == [] then 0
    else
      var init := ds[..|ds| - 1];
      assert forall k :: 0 <= k < |init| ==> init[k] == ds[k];
      DecimalValue(init) * 10 + DigitValue(ds[|ds| - 1])
  }

  /**
   * Integer#to_s: the decimal digits of `n`, with no leading zero. It is
   * the reference numeral that `DecimalValue` is checked against.
   */
  function Decimal(n: nat): (ds: string)
    ensures |ds| > 0 && AllDigits(ds)
    ensures |ds| > 1 ==> ds[0] != '0'
  {
    if n < 10 then [DigitChar(n)] else Decimal(n / 10) + [DigitChar(n % 10)]
  }

  /** Reading back the digits of a number gives the number. */
  lemma {:induction false} DecimalRoundTrip(n: nat)
    ensures DecimalValue(Decimal(n)) == n
  {
    if n >= 10 {
      var ds := Decimal(n);
      assert ds[..|ds| - 1] == Decimal(n / 10);
      DecimalRoundTrip(n / 10);
    }
  }

  /** Leading zeros do not change the value. */
  lemma {:induction false} DecimalLeadingZero(ds: string)
    requires AllDigits(ds)
    ensures AllDigits("0" + ds) && DecimalValue("0" + ds) == DecimalValue(ds)
    decreases |ds|
  {
    var z := "0" + ds;
    assert AllDigits(z) by {
      forall k | 0 <= k < |z| ensures IsDigit(z[k]) {
        if k > 0 { assert z[k] == ds[k - 1]; }
      }
    }
    if ds != [] {
      assert z[..|z| - 1] == "0" + ds[..|ds| - 1];
      DecimalLeadingZero(ds[..|ds| - 1]);
    }
  }
}
