/**
 * Turkish telephone numbers in the international format of ITU-T
 * Recommendation E.164 (clause 6, number structure): country code 90
 * followed by a ten-digit national significant number, written "+90...".
 */
module Phone {
  import opened JsValues

  /** The characters removed after white space: `[-()+]`. */
  predicate IsMark(c: char)
  {
    c == '-' || c == '(' || c == ')' || c == '+'
  }

  /** `s.replace(/<class>/g, '')`: every character of the class removed. */
  function Strip(s: string, drop: char -> bool): (r: string)
    ensures forall i :: 0 <= i < |r| ==> !drop(r[i])
    ensures |r| <= |s|
  {
    if s == [] then []
    else if drop(s[0]) then Strip(s[1..], drop)
    else [s[0]] + Strip(s[1..], drop)
  }

  lemma {:induction false} StripConcat(a: string, b: string, drop: char -> bool)
    ensures Strip(a + b, drop) == Strip(a, drop) + Strip(b, drop)
  {
    if a == [] {
      assert a + b == b;
    } else {
      assert (a + b)[0] == a[0];
      assert (a + b)[1..] == a[1..] + b;
      StripConcat(a[1..], b, drop);
    }
  }

  lemma {:induction false} StripKeepsClean(s: string, drop: char -> bool)
    requires forall i :: 0 <= i < |s| ==> !drop(s[i])
    ensures Strip(s, drop) == s
  {
    if s != [] {
      StripKeepsClean(s[1..], drop);
    }
  }

  /** White space removed, then the marks. */
  function Clean(phone: string): (r: string)
    ensures forall i :: 0 <= i < |r| ==> !IsJsSpace(r[i]) && !IsMark(r[i])
  {
    var t := Strip(phone, IsJsSpace);
    var r := Strip(t, IsMark);
    assert forall i :: 0 <= i < |r| ==> r[i] in t by {
      StripMembers(t, IsMark);
    }
    r
  }

  lemma {:induction false} StripMembers(s: string, drop: char -> bool)
    ensures forall i :: 0 <= i < |Strip(s, drop)| ==> Strip(s, drop)[i] in s
  {
    if s != [] {
      StripMembers(s[1..], drop);
    }
  }

  /** Cleaning removes every '+', so the "+90" test that follows it in the
      source can never succeed. */
  lemma CleanedNeverStartsWithPlus(phone: string)
    ensures !StartsWith(Clean(phone), "+90")
  {
    var c := Clean(phone);
    if |c| > 0 { assert !IsMark(c[0]); }
  }

  /** `formatPhoneToE164` */
  function FormatPhoneToE164(phone: string): (r: string)
    ensures phone == "" ==> r == ""
    ensures phone != "" ==> StartsWith(r, "+90")
    ensures forall i :: 0 <= i < |r| ==> !IsJsSpace(r[i]) && r[i] != '-' && r[i] != '(' && r[i] != ')'
    ensures forall i :: 1 <= i < |r| ==> r[i] != '+'
  {
    if phone == "" then ""
    else
      var cleaned := Clean(phone);
      if !StartsWith(cleaned, "+90") then
        if StartsWith(cleaned, "90") then "+" + cleaned
        else if StartsWith(cleaned, "0") then "+90" + cleaned[1..]
        else "+90" + cleaned
      else
        cleaned
  }

  /** After cleaning, the prefix decides: "90" gets a '+', "0" is replaced by
      "+90", anything else gets "+90" in front. */
  lemma FormatBranches(phone: string)
    requires phone != ""
    ensures var c := Clean(phone);
      && (StartsWith(c, "90") ==> FormatPhoneToE164(phone) == "+" + c)
      && (!StartsWith(c, "90") && StartsWith(c, "0") ==> FormatPhoneToE164(phone) == "+90" + c[1..])
      && (!StartsWith(c, "90") && !StartsWith(c, "0") ==> FormatPhoneToE164(phone) == "+90" + c)
  {
    CleanedNeverStartsWithPlus(phone);
  }

  /** A formatted number is "+90" followed by characters that cleaning keeps. */
  lemma FormattedShape(phone: string)
    requires phone != ""
    ensures var r := FormatPhoneToE164(phone);
      && |r| >= 3 && r[..3] == "+90"
      && forall i :: 3 <= i < |r| ==> !IsJsSpace(r[i]) && !IsMark(r[i])
  {
    var c := Clean(phone);
    CleanedNeverStartsWithPlus(phone);
    if StartsWith(c, "90") {
      assert FormatPhoneToE164(phone) == "+" + c;
    }
  }

  /** Formatting is idempotent. */
  lemma FormatIdempotent(phone: string)
    ensures FormatPhoneToE164(FormatPhoneToE164(phone)) == FormatPhoneToE164(phone)
  {
    if phone != "" {
      var r := FormatPhoneToE164(phone);
      FormattedShape(phone);
      var tail := r[3..];
      assert r == "+90" + tail;
      StripKeepsClean(tail, IsJsSpace);
      StripKeepsClean(tail, IsMark);
      StripConcat("+90", tail, IsJsSpace);
      assert Strip("+90", IsJsSpace) == "+90";
      StripConcat("+90", tail, IsMark);
      assert Strip("+90", IsMark) == "90";
      assert Clean(r) == "90" + tail;
      CleanedNeverStartsWithPlus(r);
      assert FormatPhoneToE164(r) == "+" + ("90" + tail);
    }
  }

  /** `/^\+90[1-9][0-9]{9}$/`: "+90", a digit 1-9, nine more digits. */
  predicate IsTurkishE164(f: string)
  {
    && |f| == 13
    && f[..3] == "+90"
    && '1' <= f[3] <= '9'
    && forall i :: 4 <= i < 13 ==> IsDecimalDigit(f[i])
  }

  /** `validatePhoneNumber` */
  predicate ValidatePhoneNumber(phone: string)
  {
    phone != "" && IsTurkishE164(FormatPhoneToE164(phone))
  }

  /** A ten-digit national significant number whose first digit is not 0. */
  predicate IsNationalNumber(d: string)
  {
    |d| == 10 && AllDecimalDigits(d) && d[0] != '0'
  }

  /** A national number is left alone by cleaning, also behind a prefix. */
  lemma CleanBehindPrefix(p: string, d: string)
    requires IsNationalNumber(d)
    ensures Clean(d) == d
    ensures Clean(p + d) == Clean(p) + d
  {
    assert forall i :: 0 <= i < |d| ==> !IsJsSpace(d[i]) && !IsMark(d[i]);
    StripKeepsClean(d, IsJsSpace);
    StripKeepsClean(d, IsMark);
    StripConcat(p, d, IsJsSpace);
    StripConcat(Strip(p, IsJsSpace), d, IsMark);
  }

  lemma FormatWithPrefix(p: string, d: string)
    requires IsNationalNumber(d)
    requires Clean(p) == "0" || Clean(p) == "90"
    ensures FormatPhoneToE164(p + d) == "+90" + d
  {
    CleanBehindPrefix(p, d);
    CleanedNeverStartsWithPlus(p + d);
    var c := Clean(p + d);
    if Clean(p) == "90" {
      assert StartsWith(c, "90");
      assert FormatPhoneToE164(p + d) == "+" + c;
    } else {
      assert !StartsWith(c, "90") && StartsWith(c, "0");
      assert c[1..] == d;
    }
  }

  /** A national number behind a prefix that cleans to "0" or "90" is valid. */
  lemma ValidWithPrefix(p: string, d: string)
    requires IsNationalNumber(d)
    requires Clean(p) == "0" || Clean(p) == "90"
    ensures ValidatePhoneNumber(p + d)
  {
    FormatWithPrefix(p, d);
    assert IsTurkishE164("+90" + d);
  }

  lemma CleanPrefixes()
    ensures Clean("0") == "0"
    ensures Clean("90") == "90"
    ensures Clean("+90") == "90"
    ensures Clean("+90 ") == "90"
  {
    assert Strip("+90 ", IsJsSpace) == "+90";
  }

  /** A bare national number is valid unless it begins with "90", which is
      then read as the country code and leaves eight national digits. */
  lemma ValidBare(d: string)
    requires IsNationalNumber(d)
    ensures ValidatePhoneNumber(d) <==> !StartsWith(d, "90")
  {
    CleanBehindPrefix("", d);
    CleanedNeverStartsWithPlus(d);
    if !StartsWith(d, "90") {
      assert FormatPhoneToE164(d) == "+90" + d;
      assert IsTurkishE164("+90" + d);
    } else {
      assert FormatPhoneToE164(d) == "+" + d;
    }
  }

  /** The empty string is never valid; a national number is valid written
      with a trunk '0', with "90", with "+90", with "+90 ", and bare unless
      it begins with "90" (which is then read as the country code). */
  lemma ValidateAcceptsNationalForms(d: string)
    requires IsNationalNumber(d)
    ensures !ValidatePhoneNumber("")
    ensures ValidatePhoneNumber("0" + d)
    ensures ValidatePhoneNumber("90" + d)
    ensures ValidatePhoneNumber("+90" + d)
    ensures ValidatePhoneNumber("+90 " + d)
    ensures !StartsWith(d, "90") ==> ValidatePhoneNumber(d)
    ensures StartsWith(d, "90") ==> !ValidatePhoneNumber(d)
  {
    CleanPrefixes();
    ValidWithPrefix("0", d);
    ValidWithPrefix("90", d);
    ValidWithPrefix("+90", d);
    ValidWithPrefix("+90 ", d);
    ValidBare(d);
  }
}
