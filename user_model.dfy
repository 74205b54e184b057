/**
 * The user document's validators: the anchored email and mobile regular
 * expressions and the gender enumeration. Each expression is written down as
 * the pattern the source declares (a chain of bracket classes with
 * quantifiers) and given the usual "some split of the string matches the
 * atoms in turn" meaning; lemmas then characterise the accepted strings.
 */
module UserModel {
  import opened Wrappers
  import opened Strings

  /** A character range `lo-hi` of a bracket expression. */
  datatype CharRange = Range(lo: char, hi: char)

  /** `[ranges]{min,max}`; `max == None` is an unbounded `+`/`{min,}`. */
  datatype Atom = Atom(ranges: seq<CharRange>, min: nat, max: Option<nat>)

  /** An anchored pattern `^a1 a2 ... an$`. */
  datatype Pattern = End | Then(head: Atom, rest: Pattern)

  predicate InClass(ranges: seq<CharRange>, c: char)
  {
    exists r :: r in ranges && r.lo <= c <= r.hi
  }

  /** The whole of `w` is matched by one quantified class. */
  predicate AtomMatches(a: Atom, w: string)
  {
    && a.min <= |w|
    && (a.max.Some? ==> |w| <= a.max.value)
    && forall k :: 0 <= k < |w| ==> InClass(a.ranges, w[k])
  }

  /** The whole of `s` is matched by the anchored pattern (the meaning of `RegExp.test` on `^...$`). */
  predicate Matches(p: Pattern, s: string)
  {
    match p
    case End => s == []
    case Then(a, rest) => exists i :: 0 <= i <= |s| && AtomMatches(a, s[..i]) && Matches(rest, s[i..])
  }

  // The classes and the two patterns of models/User.js.
  const LocalRanges := [Range('a', 'z'), Range('A', 'Z'), Range('0', '9'), Range('.', '.'), Range('_', '_'), Range('-', '-')]
  const DomainRanges := [Range('a', 'z'), Range('A', 'Z'), Range('0', '9'), Range('.', '.'), Range('-', '-')]
  const LetterRanges := [Range('a', 'z'), Range('A', 'Z')]
  const DigitRanges := [Range('0', '9')]

  // The pattern's suffixes, innermost first.
  const TldTail := Then(Atom(LetterRanges, 2, Some(6)), End)
  const DotTail := Then(Atom([Range('.', '.')], 1, Some(1)), TldTail)
  const DomainTail := Then(Atom(DomainRanges, 1, None), DotTail)
  const AtTail := Then(Atom([Range('@', '@')], 1, Some(1)), DomainTail)

  /** `/^[a-zA-Z0-9._-]+@[a-zA-Z0-9.-]+\.[a-zA-Z]{2,6}$/` */
  const EmailPattern := Then(Atom(LocalRanges, 1, None), AtTail)

  /** `/^[0-9]{10}$/` */
  const MobilePattern := Then(Atom(DigitRanges, 10, Some(10)), End)

  predicate ValidEmail(s: string) { Matches(EmailPattern, s) }

  predicate ValidMobile(s: string) { Matches(MobilePattern, s) }

  predicate IsLocalChar(c: char) { IsAsciiLetter(c) || IsDigit(c) || c == '.' || c == '_' || c == '-' }

  predicate IsDomainChar(c: char) { IsAsciiLetter(c) || IsDigit(c) || c == '.' || c == '-' }

  /**
   * The shape the email pattern describes, with the two split points named:
   * a non-empty local part, the `@` at `at`, a non-empty domain, the `.` at
   * `dot`, and 2 to 6 ASCII letters that end the string.
   */
  predicate EmailSplit(s: string, at: int, dot: int)
  {
    && 0 < at && at + 1 < dot && dot < |s|
    && s[at] == '@' && s[dot] == '.'
    && 2 <= |s| - dot - 1 <= 6
    && (forall k :: 0 <= k < at ==> IsLocalChar(s[k]))
    && (forall k :: at < k < dot ==> IsDomainChar(s[k]))
    && (forall k :: dot < k < |s| ==> IsAsciiLetter(s[k]))
  }

  lemma LocalClass(c: char)
    ensures InClass(LocalRanges, c) <==> IsLocalChar(c)
  {
    if IsLocalChar(c) {
      if 'a' <= c <= 'z' { assert LocalRanges[0] in LocalRanges; }
      else if 'A' <= c <= 'Z' { assert LocalRanges[1] in LocalRanges; }
      else if IsDigit(c) { assert LocalRanges[2] in LocalRanges; }
      else if c == '.' { assert LocalRanges[3] in LocalRanges; }
      else if c == '_' { assert LocalRanges[4] in LocalRanges; }
      else { assert LocalRanges[5] in LocalRanges; }
    }
  }

  lemma DomainClass(c: char)
    ensures InClass(DomainRanges, c) <==> IsDomainChar(c)
  {
    if IsDomainChar(c) {
      if 'a' <= c <= 'z' { assert DomainRanges[0] in DomainRanges; }
      else if 'A' <= c <= 'Z' { assert DomainRanges[1] in DomainRanges; }
      else if IsDigit(c) { assert DomainRanges[2] in DomainRanges; }
      else if c == '.' { assert DomainRanges[3] in DomainRanges; }
      else { assert DomainRanges[4] in DomainRanges; }
    }
  }

  lemma LetterClass(c: char)
    ensures InClass(LetterRanges, c) <==> IsAsciiLetter(c)
  {
    if IsAsciiLetter(c) {
      if 'a' <= c <= 'z' { assert LetterRanges[0] in LetterRanges; }
      else { assert LetterRanges[1] in LetterRanges; }
    }
  }

  lemma SingleClass(lo: char, c: char)
    ensures InClass([Range(lo, lo)], c) <==> c == lo
  {
    if c == lo { assert Range(lo, lo) in [Range(lo, lo)]; }
  }

  /** A run matched by the local-part class is a run of local-part characters. */
  lemma LocalRun(w: string)
    ensures AtomMatches(Atom(LocalRanges, 1, None), w) <==> |w| >= 1 && forall k :: 0 <= k < |w| ==> IsLocalChar(w[k])
  {
    forall k | 0 <= k < |w| { LocalClass(w[k]); }
  }

  lemma DomainRun(w: string)
    ensures AtomMatches(Atom(DomainRanges, 1, None), w) <==> |w| >= 1 && forall k :: 0 <= k < |w| ==> IsDomainChar(w[k])
  {
    forall k | 0 <= k < |w| { DomainClass(w[k]); }
  }

  lemma LetterRun(w: string)
    ensures AtomMatches(Atom(LetterRanges, 2, Some(6)), w) <==> 2 <= |w| <= 6 && forall k :: 0 <= k < |w| ==> IsAsciiLetter(w[k])
  {
    forall k | 0 <= k < |w| { LetterClass(w[k]); }
  }

  lemma SingleRun(lo: char, w: string)
    ensures AtomMatches(Atom([Range(lo, lo)], 1, Some(1)), w) <==> w == [lo]
  {
    if |w| == 1 { SingleClass(lo, w[0]); }
  }

  lemma TldTailMatches(t: string)
    ensures Matches(TldTail, t) <==> 2 <= |t| <= 6 && forall k :: 0 <= k < |t| ==> IsAsciiLetter(t[k])
  {
    LetterRun(t);
    if Matches(TldTail, t) {
      var i :| 0 <= i <= |t| && AtomMatches(TldTail.head, t[..i]) && Matches(End, t[i..]);
      assert t[..i] == t;
    }
    if 2 <= |t| <= 6 && forall k :: 0 <= k < |t| ==> IsAsciiLetter(t[k]) {
      assert t[..|t|] == t && t[|t|..] == [];
    }
  }

  /** One fixed character followed by whatever `rest` matches. */
  lemma SingleThen(lo: char, rest: Pattern, t: string)
    ensures Matches(Then(Atom([Range(lo, lo)], 1, Some(1)), rest), t) <==> |t| >= 1 && t[0] == lo && Matches(rest, t[1..])
  {
    if Matches(Then(Atom([Range(lo, lo)], 1, Some(1)), rest), t) {
      var i :| 0 <= i <= |t| && AtomMatches(Atom([Range(lo, lo)], 1, Some(1)), t[..i]) && Matches(rest, t[i..]);
      SingleRun(lo, t[..i]);
    }
    if |t| >= 1 && t[0] == lo && Matches(rest, t[1..]) {
      SingleRun(lo, t[..1]);
    }
  }

  /** The shape of what follows the `@`: a domain run ended by the last `.` and the letters. */
  predicate DomainSplit(t: string, d: int)
  {
    && 0 < d && d + 1 < |t|
    && t[d] == '.'
    && 2 <= |t| - d - 1 <= 6
    && (forall k :: 0 <= k < d ==> IsDomainChar(t[k]))
    && (forall k :: d < k < |t| ==> IsAsciiLetter(t[k]))
  }

  lemma DomainTailFromSplit(t: string, d: int)
    requires DomainSplit(t, d)
    ensures Matches(DomainTail, t)
  {
    var tld := t[d + 1..];
    TldTailMatches(tld);
    SingleThen('.', TldTail, t[d..]);
    assert t[d..][1..] == tld;
    DomainRun(t[..d]);
  }

  lemma SplitFromDomainTail(t: string) returns (d: int)
    requires Matches(DomainTail, t)
    ensures DomainSplit(t, d)
  {
    var i :| 0 <= i <= |t| && AtomMatches(DomainTail.head, t[..i]) && Matches(DotTail, t[i..]);
    DomainRun(t[..i]);
    SingleThen('.', TldTail, t[i..]);
    TldTailMatches(t[i..][1..]);
    d := i;
    forall k | 0 <= k < d ensures IsDomainChar(t[k]) {
      assert t[k] == t[..i][k];
    }
    forall k | d < k < |t| ensures IsAsciiLetter(t[k]) {
      assert t[k] == t[i..][1..][k - d - 1];
    }
  }

  /** A split of the string witnesses a match of the email pattern. */
  lemma EmailFromSplit(s: string, at: int, dot: int)
    requires EmailSplit(s, at, dot)
    ensures ValidEmail(s)
  {
    var domain := s[at + 1..];
    assert DomainSplit(domain, dot - at - 1);
    DomainTailFromSplit(domain, dot - at - 1);
    SingleThen('@', DomainTail, s[at..]);
    assert s[at..][1..] == domain;
    LocalRun(s[..at]);
  }

  /** A match of the email pattern yields a split of the string. */
  lemma SplitFromEmail(s: string) returns (at: int, dot: int)
    requires ValidEmail(s)
    ensures EmailSplit(s, at, dot)
  {
    var i :| 0 <= i <= |s| && AtomMatches(EmailPattern.head, s[..i]) && Matches(AtTail, s[i..]);
    LocalRun(s[..i]);
    SingleThen('@', DomainTail, s[i..]);
    var domain := s[i..][1..];
    var d := SplitFromDomainTail(domain);
    at, dot := i, i + 1 + d;
    forall k | 0 <= k < at ensures IsLocalChar(s[k]) {
      assert s[k] == s[..i][k];
    }
    forall k | at < k < |s| ensures s[k] == domain[k - at - 1] {
    }
  }

  /** The email regular expression accepts exactly the strings that split as `EmailSplit` describes. */
  lemma EmailCharacterised(s: string)
    ensures ValidEmail(s) <==> exists at, dot :: EmailSplit(s, at, dot)
  {
    if ValidEmail(s) {
      var at, dot := SplitFromEmail(s);
    }
    if exists at, dot :: EmailSplit(s, at, dot) {
      var at, dot :| EmailSplit(s, at, dot);
      EmailFromSplit(s, at, dot);
    }
  }

  /** A valid email holds exactly one `@`. */
  lemma EmailHasOneAt(s: string) returns (at: int)
    requires ValidEmail(s)
    ensures 0 < at < |s| && s[at] == '@'
    ensures forall k :: 0 <= k < |s| && s[k] == '@' ==> k == at
  {
    var dot;
    at, dot := SplitFromEmail(s);
  }

  /** The mobile regular expression accepts exactly the strings of ten decimal digits. */
  lemma MobileCharacterised(s: string)
    ensures ValidMobile(s) <==> |s| == 10 && AllDigits(s)
  {
    var a := Atom(DigitRanges, 10, Some(10));
    forall k | 0 <= k < |s| ensures InClass(DigitRanges, s[k]) <==> IsDigit(s[k]) {
      if IsDigit(s[k]) { assert DigitRanges[0] in DigitRanges; }
    }
    if |s| == 10 && AllDigits(s) {
      assert s[..10] == s && s[10..] == [];
      assert AtomMatches(a, s[..10]) && Matches(End, s[10..]);
    }
    if ValidMobile(s) {
      var i :| 0 <= i <= |s| && AtomMatches(a, s[..i]) && Matches(End, s[i..]);
      assert s[..i] == s;
    }
  }

  /** No string is both a valid email and a valid mobile number. */
  lemma EmailIsNotMobile(s: string)
    ensures !(ValidEmail(s) && ValidMobile(s))
  {
    if ValidEmail(s) {
      var at := EmailHasOneAt(s);
      MobileCharacterised(s);
      assert !IsDigit(s[at]);
    }
  }

  /** The values of the `gender` enumeration. */
  datatype Gender = Male | Female | Other

  function GenderName(g: Gender): string
  {
    match g
    case Male => "male"
    case Female => "female"
    case Other => "other"
  }

  /** Reads one of the enumeration's strings; anything else is not a gender. */
  function ParseGender(s: string): (r: Option<Gender>)
    ensures r.Some? ==> GenderName(r.value) == s
    ensures r.None? ==> forall g :: GenderName(g) != s
  {
    if s == "male" then Some(Male)
    else if s == "female" then Some(Female)
    else if s == "other" then Some(Other)
    else None
  }

  lemma GenderRoundTrip(g: Gender)
    ensures ParseGender(GenderName(g)) == Some(g)
  {
  }

  /** The enum validator: an absent gender passes, a present one must be one of the three names. */
  predicate GenderValid(gender: Option<string>)
  {
    gender.None? || ParseGender(gender.value).Some?
  }

  /** The fields of a user document, as they are validated on save (the password is left out, see README). */
  datatype UserDoc = UserDoc(username: string, email: string, mobile: string, age: Option<int>, gender: Option<string>)

  datatype UserField = UsernameField | EmailField | MobileField | GenderField

  /**
   * Every path whose validator rejects the document: `required` rejects an
   * empty string, `validate` runs the expressions, `enum` the gender list.
   */
  function ValidationErrors(u: UserDoc): (r: set<UserField>)
    ensures UsernameField in r <==> u.username == ""
    ensures EmailField in r <==> !ValidEmail(u.email)
    ensures MobileField in r <==> !ValidMobile(u.mobile)
    ensures GenderField in r <==> !GenderValid(u.gender)
  {
    EmailCharacterised("");
    MobileCharacterised("");
    (if u.username == "" then {UsernameField} else {})
    + (if u.email == "" || !ValidEmail(u.email) then {EmailField} else {})
    + (if u.mobile == "" || !ValidMobile(u.mobile) then {MobileField} else {})
    + (if !GenderValid(u.gender) then {GenderField} else {})
  }
}
