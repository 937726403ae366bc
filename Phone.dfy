/** The phone-number pattern of the participant form and the normalisation applied before
    a number is put into a chat deep link. */
module Phone {

  predicate IsDigit(c: char) {
    '0' <= c <= '9'
  }

  /** `[1-9]\d{6}`: the seven-digit subscriber number, which may not start with 0. */
  predicate IsSubscriber(t: string) {
    |t| == 7 && '1' <= t[0] <= '9' && forall i :: 1 <= i < 7 ==> IsDigit(t[i])
  }

  /** `([23489]|5[0248]|77)[1-9]\d{6}`: what follows the trunk prefix. The first character
      decides the branch, so the alternation is matched without backtracking. */
  predicate IsNationalNumber(t: string) {
    if |t| == 0 then false
    else if t[0] in "23489" then IsSubscriber(t[1..])
    else if t[0] == '5' then |t| >= 2 && t[1] in "0248" && IsSubscriber(t[2..])
    else if t[0] == '7' then |t| >= 2 && t[1] == '7' && IsSubscriber(t[2..])
    else false
  }

  /** `validatePhone`: the anchored test of `^(\+972|0)([23489]|5[0248]|77)[1-9]\d{6}$`.
      An accepted number starts with one of the two trunk prefixes and ends with a
      subscriber number, the area code taking the one or two characters in between. */
  predicate ValidatePhone(s: string): (ok: bool)
    ensures ok ==> |s| >= 9 && (s[0] == '0' || s[..4] == "+972")
    ensures ok ==> IsSubscriber(s[|s| - 7..])
  {
    if |s| >= 4 && s[..4] == "+972" then NationalSuffix(s, 4); IsNationalNumber(s[4..])
    else if |s| >= 1 && s[0] == '0' then NationalSuffix(s, 1); IsNationalNumber(s[1..])
    else false
  }

  /** A national number after the first `k` characters is at least eight characters long
      and ends the string with a subscriber number. */
  lemma NationalSuffix(s: string, k: nat)
    requires k <= |s|
    ensures IsNationalNumber(s[k..]) ==> |s| >= k + 8 && IsSubscriber(s[|s| - 7..])
  {
    var t := s[k..];
    if IsNationalNumber(t) {
      var n := if t[0] in "23489" then 1 else 2;
      assert IsSubscriber(t[n..]);
      assert t[n..] == s[|s| - 7..];
    }
  }

  /** The alternatives of the pattern, written as sets of strings. */
  const TrunkPrefixes: set<string> := {"+972", "0"}
  const AreaCodes: set<string> := {"2", "3", "4", "8", "9", "50", "52", "54", "58", "77"}

  /** The regular language of the pattern: a trunk prefix, an area code, a subscriber number. */
  ghost predicate InPattern(s: string) {
    exists p, a, t :: p in TrunkPrefixes && a in AreaCodes && IsSubscriber(t) && s == p + a + t
  }

  /** A one- or two-character prefix `t[..n]` the national branch accepts is an area code. */
  lemma AreaCodeOfBranch(t: string, n: nat)
    requires IsNationalNumber(t) && n == (if t[0] in "23489" then 1 else 2)
    ensures t[..n] in AreaCodes && IsSubscriber(t[n..])
  {
    if n == 1 {
      assert t[..1] == [t[0]];
      assert t[0] == '2' || t[0] == '3' || t[0] == '4' || t[0] == '8' || t[0] == '9';
    } else {
      assert t[..2] == [t[0], t[1]];
      assert t[0] == '5' || t[0] == '7';
      assert t[1] == '0' || t[1] == '2' || t[1] == '4' || t[1] == '8' || t[1] == '7';
    }
  }

  /** An area code followed by a subscriber number passes the national branch. */
  lemma AreaCodeThenSubscriber(a: string, u: string)
    requires a in AreaCodes && IsSubscriber(u)
    ensures IsNationalNumber(a + u)
  {
    var t := a + u;
    assert t[|a|..] == u;
    if |a| == 2 {
      assert t[0] == a[0] && t[1] == a[1];
    } else {
      assert t[0] == a[0];
    }
  }

  /** The national part, read against the area-code set. */
  lemma NationalNumberIffAreaCode(t: string)
    ensures IsNationalNumber(t) <==> exists a, u :: a in AreaCodes && IsSubscriber(u) && t == a + u
  {
    if IsNationalNumber(t) {
      var n := if t[0] in "23489" then 1 else 2;
      AreaCodeOfBranch(t, n);
      assert t == t[..n] + t[n..];
    }
    if exists a, u :: a in AreaCodes && IsSubscriber(u) && t == a + u {
      var a, u :| a in AreaCodes && IsSubscriber(u) && t == a + u;
      AreaCodeThenSubscriber(a, u);
    }
  }

  /** Every string `validatePhone` accepts is in the pattern's language. */
  lemma ValidatePhoneInPattern(s: string)
    requires ValidatePhone(s)
    ensures InPattern(s)
  {
    var p := if s[0] == '+' then "+972" else "0";
    var t := s[|p|..];
    assert s[..|p|] == p;
    NationalNumberIffAreaCode(t);
    var a, u :| a in AreaCodes && IsSubscriber(u) && t == a + u;
    assert s == p + t;
    assert s == p + a + u;
  }

  /** Every string of the pattern's language is accepted by `validatePhone`. */
  lemma PatternValidatesPhone(p: string, a: string, u: string)
    requires p in TrunkPrefixes && a in AreaCodes && IsSubscriber(u)
    ensures ValidatePhone(p + a + u)
  {
    var s := p + a + u;
    assert s[..|p|] == p;
    assert s[|p|..] == a + u;
    AreaCodeThenSubscriber(a, u);
    if p == "0" {
      assert s[0] == '0';
      assert |s| >= 4 ==> s[..4][0] == '0';
    }
  }

  /** `validatePhone` accepts exactly the strings of the pattern's language. */
  lemma ValidatePhoneIffInPattern(s: string)
    ensures ValidatePhone(s) <==> InPattern(s)
  {
    if ValidatePhone(s) {
      ValidatePhoneInPattern(s);
    }
    if InPattern(s) {
      var p, a, u :| p in TrunkPrefixes && a in AreaCodes && IsSubscriber(u) && s == p + a + u;
      PatternValidatesPhone(p, a, u);
    }
  }

  /** A valid number is 9 to 13 characters long, and every character after a leading
      `+` is a decimal digit. */
  lemma ValidPhoneShape(s: string)
    requires ValidatePhone(s)
    ensures |s| in {9, 10, 12, 13}
    ensures forall i :: 0 < i < |s| ==> IsDigit(s[i])
    ensures s[0] == '+' || s[0] == '0'
  {
    var k := if s[0] == '+' then 4 else 1;
    var t := s[k..];
    assert forall i :: k <= i < |s| ==> s[i] == t[i - k];
  }

  /** Two accepted spellings of one mobile number. */
  lemma ValidatePhoneAccepts()
    ensures ValidatePhone("0501234567")
    ensures ValidatePhone("+972501234567")
  {
    var local, intl := "0501234567", "+972501234567";
    assert local[1..] == "501234567" && intl[4..] == "501234567" && intl[..4] == "+972";
    assert local[..4][0] == '0';
    var t := "501234567";
    assert t[0] == '5' && t[1] == '0' && t[2..] == "1234567";
    assert IsSubscriber("1234567");
  }

  /** A number too short, and a number whose area code (1) is not in the pattern. */
  lemma ValidatePhoneRejects()
    ensures !ValidatePhone("12345")
    ensures !ValidatePhone("0101234567")
  {
    assert "12345"[..4][0] == '1' && "12345"[0] == '1';
    assert "0101234567"[..4][0] == '0' && "0101234567"[1..][0] == '1';
  }

  /** The phone normalisation of `sendWhatsAppMessage`: a number that starts with `+` is
      kept; any other has its first character dropped and `+972` put in its place. */
  function NormalizePhone(s: string): (r: string)
    ensures |r| > 0 && r[0] == '+'
    ensures s != [] && s[0] == '+' ==> r == s
    ensures !(s != [] && s[0] == '+') ==> |r| >= 4 && r[..4] == "+972" && r[4..] == s[if s == [] then 0 else 1..]
  {
    if |s| > 0 && s[0] == '+' then s else "+972" + s[if s == [] then 0 else 1..]
  }

  /** Normalising twice is normalising once. */
  lemma NormalizePhoneIdempotent(s: string)
    ensures NormalizePhone(NormalizePhone(s)) == NormalizePhone(s)
  {
  }

  /** A valid number normalises to a valid number in the international spelling, and the
      local and international spellings of one number normalise to the same string. */
  lemma NormalizeValidPhone(s: string)
    requires ValidatePhone(s)
    ensures ValidatePhone(NormalizePhone(s))
    ensures NormalizePhone(s)[..4] == "+972"
    ensures s[0] == '0' ==> NormalizePhone(s) == NormalizePhone("+972" + s[1..])
  {
    if s[0] == '0' {
      var r := NormalizePhone(s);
      assert r[..4] == "+972" && r[4..] == s[1..];
    }
  }
}
