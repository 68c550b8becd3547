/** Version numbers and their two printed forms (common/badversion/version.go). */
module BadVersion {

  const MAX_INT: int := 0x7fff_ffff_ffff_ffff
  const MAX_UINT: int := 0xffff_ffff_ffff_ffff

  type int64 = x: int | -MAX_INT - 1 <= x <= MAX_INT

  datatype Version = Version(
    major: int64,
    minor: int64,
    patch: int64,
    commit: string,
    identifier: string,
    preRelease: int64)

  // ---------------------------------------------------------------- numbers as text

  function Digit(d: nat): (c: char)
    requires d < 10
    ensures IsDigit(c) && c as int - '0' as int == d
  {
    "0123456789"[d]
  }

  predicate IsDigit(c: char) {
    '0' <= c <= '9'
  }

  function Digits(n: nat): (s: string)
    ensures s != [] && forall c :: c in s ==> IsDigit(c)
  {
    if n < 10 then [Digit(n)] else Digits(n / 10) + [Digit(n % 10)]
  }

  /** strconv.Itoa. */
  function Itoa(n: int): string {
    if n < 0 then "-" + Digits(-n) else Digits(n)
  }

  datatype Parsed = Number(value: nat) | SyntaxError | RangeError

  /** The digit loop of strconv.ParseUint: overflow is reported before the rest of the text is looked at. */
  function ParseUint(s: string, acc: nat): (r: Parsed)
    ensures r.Number? && acc <= MAX_UINT ==> r.value <= MAX_UINT
  {
    if s == [] then Number(acc)
    else if !IsDigit(s[0]) then SyntaxError
    else
      var n := acc * 10 + (s[0] as int - '0' as int);
      if n > MAX_UINT then RangeError else ParseUint(s[1..], n)
  }

  function Clamp(n: int): int64 {
    if n > MAX_INT then MAX_INT else if n < -MAX_INT - 1 then -MAX_INT - 1 else n
  }

  /** strconv.Atoi with its error ignored: 0 for malformed text, the nearest value for text out of range. */
  function Atoi(s: string): (n: int64)
    ensures '-' !in s ==> n >= 0
  {
    var negative := s != [] && s[0] == '-';
    var body := if s != [] && (s[0] == '-' || s[0] == '+') then s[1..] else s;
    if body == [] then 0
    else
      match ParseUint(body, 0)
      case Number(n) => Clamp(if negative then 0 - n else n)
      case SyntaxError => 0
      case RangeError => Clamp(if negative then -MAX_UINT else MAX_UINT)
  }

  lemma ParseOneDigit(d: nat, rest: string, acc: nat)
    requires d < 10 && acc * 10 + d <= MAX_UINT
    ensures ParseUint([Digit(d)] + rest, acc) == ParseUint(rest, acc * 10 + d)
  {
    assert ([Digit(d)] + rest)[1..] == rest;
  }

  lemma {:induction false} ParseUintDigits(n: nat, rest: string)
    requires n <= MAX_UINT
    ensures ParseUint(Digits(n) + rest, 0) == ParseUint(rest, n)
  {
    ParseOneDigit(n % 10, rest, n / 10);
    if n >= 10 {
      var last := [Digit(n % 10)];
      ParseUintDigits(n / 10, last + rest);
      assert Digits(n) + rest == Digits(n / 10) + (last + rest);
    }
  }

  lemma AtoiItoa(n: nat)
    requires n <= MAX_INT
    ensures Atoi(Itoa(n)) == n
  {
    ParseUintDigits(n, []);
    assert Digits(n) + [] == Digits(n);
  }

  // ---------------------------------------------------------------- splitting

  function Index(s: string, c: char): (i: nat)
    requires c in s
    ensures i < |s| && s[i] == c && c !in s[..i]
  {
    if s[0] == c then 0
    else
      var i := 1 + Index(s[1..], c);
      assert s[..i] == [s[0]] + s[1..][..i - 1];
      i
  }

  /** strings.Split with a separator of one character. */
  function Split(s: string, c: char): (parts: seq<string>)
    ensures parts != []
    ensures forall i :: 0 <= i < |parts| ==> c !in parts[i] && forall x :: x in parts[i] ==> x in s
    ensures c in s <==> |parts| >= 2
    decreases |s|
  {
    if c !in s then [s]
    else
      var i := Index(s, c);
      var rest := Split(s[i + 1..], c);
      [s[..i]] + rest
  }

  /** The first occurrence is the only place with no occurrence before it. */
  lemma {:induction false} IndexOfFirst(a: string, c: char, b: string)
    requires c !in a
    ensures Index(a + [c] + b, c) == |a|
  {
    var s := a + [c] + b;
    assert s[|a|] == c;
    if a != [] {
      assert s[0] == a[0];
      assert s[1..] == a[1..] + [c] + b;
      IndexOfFirst(a[1..], c, b);
    }
  }

  lemma SplitAt(a: string, c: char, b: string)
    requires c !in a
    ensures Split(a + [c] + b, c) == [a] + Split(b, c)
  {
    var s := a + [c] + b;
    assert s[|a|] == c;
    IndexOfFirst(a, c, b);
    assert s[..|a|] == a && s[|a| + 1..] == b;
  }

  lemma SplitNone(a: string, c: char)
    requires c !in a
    ensures Split(a, c) == [a]
  {
  }

  predicate HasPrefix(s: string, p: string) {
    |s| >= |p| && s[..|p|] == p
  }

  // ---------------------------------------------------------------- printing

  function Numbers(v: Version): string {
    Itoa(v.major) + "." + Itoa(v.minor) + "." + Itoa(v.patch)
  }

  function ToString(v: Version): string {
    if v.identifier == "" then Numbers(v) else Numbers(v) + "-" + v.identifier + "." + Itoa(v.preRelease)
  }

  function BadString(v: Version): string {
    Itoa(v.major) + "." + Itoa(v.minor) + (if v.patch > 0 then "." + Itoa(v.patch) else "") +
    (if v.identifier == "" then ""
     else "-" + v.identifier + (if v.preRelease > 0 then Itoa(v.preRelease) else ""))
  }

  method BuildBadString(v: Version) returns (version: string)
    ensures version == BadString(v)
  {
    version := Itoa(v.major) + "." + Itoa(v.minor);
    if v.patch > 0 {
      version := version + ("." + Itoa(v.patch));
    }
    ghost var short := version;
    var suffix := "";
    if v.identifier != "" {
      suffix := "-" + v.identifier;
      if v.preRelease > 0 {
        suffix := suffix + Itoa(v.preRelease);
      }
    }
    assert short + "" == short;
    version := version + suffix;
  }

  // ---------------------------------------------------------------- parsing

  const ZERO := Version(0, 0, 0, "", "", 0)

  /** The part after the first '-'. */
  function ParseIdentifier(text: string): Version {
    if '.' in text then
      var parts := Split(text, '.');
      ZERO.(identifier := parts[0], preRelease := Atoi(parts[1]))
    else if HasPrefix(text, "alpha") then ZERO.(identifier := "alpha", preRelease := Atoi(text[5..]))
    else if HasPrefix(text, "beta") then ZERO.(identifier := "beta", preRelease := Atoi(text[4..]))
    else ZERO.(commit := text)
  }

  function ParseNumbers(text: string, v: Version): Version {
    var e := Split(text, '.');
    v.(major := Atoi(e[0]),
       minor := if |e| >= 2 then Atoi(e[1]) else v.minor,
       patch := if |e| >= 3 then Atoi(e[2]) else v.patch)
  }

  function WithoutV(text: string): string {
    if HasPrefix(text, "v") then text[1..] else text
  }

  function Parse(text: string): Version {
    var name := WithoutV(text);
    if '-' in name then ParseNumbers(Split(name, '-')[0], ParseIdentifier(Split(name, '-')[1]))
    else ParseNumbers(name, ZERO)
  }

  method ParseVersion(text: string) returns (version: Version)
    ensures version == Parse(text)
  {
    version := ZERO;
    var name := text;
    if HasPrefix(name, "v") {
      name := name[1..];
    }
    if '-' in name {
      var parts := Split(name, '-');
      name := parts[0];
      var identifier := parts[1];
      if '.' in identifier {
        var identifierParts := Split(identifier, '.');
        version := version.(identifier := identifierParts[0]);
        if |identifierParts| >= 2 {
          version := version.(preRelease := Atoi(identifierParts[1]));
        }
      } else if HasPrefix(identifier, "alpha") {
        version := version.(identifier := "alpha", preRelease := Atoi(identifier[5..]));
      } else if HasPrefix(identifier, "beta") {
        version := version.(identifier := "beta", preRelease := Atoi(identifier[4..]));
      } else {
        version := version.(commit := identifier);
      }
    }
    var elements := Split(name, '.');
    if |elements| >= 1 {
      version := version.(major := Atoi(elements[0]));
    }
    if |elements| >= 2 {
      version := version.(minor := Atoi(elements[1]));
    }
    if |elements| >= 3 {
      version := version.(patch := Atoi(elements[2]));
    }
  }

  // ---------------------------------------------------------------- round trips

  predicate Plain(text: string) {
    '-' !in text && '.' !in text
  }

  predicate NumbersAreNatural(v: Version) {
    v.major >= 0 && v.minor >= 0 && v.patch >= 0
  }

  predicate WellFormed(v: Version) {
    NumbersAreNatural(v) && v.preRelease >= 0 && Plain(v.identifier)
  }

  /** Whatever is parsed has no negative number, and an identifier without separators. */
  lemma ParsedIsWellFormed(text: string)
    ensures WellFormed(Parse(text))
  {
    var name := WithoutV(text);
    if '-' in name {
      var parts := Split(name, '-');
      assert '-' !in parts[0] && '-' !in parts[1];
      assert '.' in parts[1] ==> '-' !in Split(parts[1], '.')[0] && '-' !in Split(parts[1], '.')[1];
      ParsedNumbers(parts[0], ParseIdentifier(parts[1]));
    } else {
      ParsedNumbers(name, ZERO);
    }
  }

  lemma ParsedNumbers(text: string, v: Version)
    requires '-' !in text && v.minor >= 0 && v.patch >= 0
    ensures NumbersAreNatural(ParseNumbers(text, v))
  {
    var e := Split(text, '.');
    assert forall i :: 0 <= i < |e| ==> '-' !in e[i];
  }

  /** A text that reads as the number n and holds no separator. */
  predicate Reads(text: string, n: int64) {
    text != [] && IsDigit(text[0]) && Plain(text) && Atoi(text) == n
  }

  lemma PrintedNumberReads(n: int64)
    requires n >= 0
    ensures Reads(Itoa(n), n)
  {
    AtoiItoa(n);
  }

  lemma NumbersTextIsPlain(a: string, rest: string)
    requires a != [] && IsDigit(a[0]) && '-' !in a && '-' !in rest
    ensures var text := a + "." + rest; '-' !in text && !HasPrefix(text, "v") && text != []
  {
    var text := a + "." + rest;
    assert text[0] == a[0];
  }

  /** Two printed numbers are read back. */
  lemma TwoNumbers(a: string, m: int64, b: string, n: int64, base: Version)
    requires Reads(a, m) && Reads(b, n)
    ensures ParseNumbers(a + "." + b, base) == base.(major := m, minor := n)
    ensures var text := a + "." + b; '-' !in text && !HasPrefix(text, "v") && text != []
  {
    SplitAt(a, '.', b);
    SplitNone(b, '.');
    NumbersTextIsPlain(a, b);
  }

  lemma SplitThree(a: string, b: string, c: string)
    requires '.' !in a && '.' !in b && '.' !in c
    ensures Split(a + "." + b + "." + c, '.') == [a, b, c]
  {
    var rest := b + "." + c;
    assert a + "." + b + "." + c == a + "." + rest;
    SplitAt(a, '.', rest);
    SplitAt(b, '.', c);
  }

  lemma ThreeNumbersArePlain(a: string, b: string, c: string)
    requires a != [] && IsDigit(a[0]) && '-' !in a && '-' !in b && '-' !in c
    ensures var text := a + "." + b + "." + c; '-' !in text && !HasPrefix(text, "v") && text != []
  {
    var text := a + "." + b + "." + c;
    assert text[0] == a[0];
  }

  /** Three printed numbers are read back. */
  lemma ThreeNumbers(a: string, m: int64, b: string, n: int64, c: string, k: int64, base: Version)
    requires Reads(a, m) && Reads(b, n) && Reads(c, k)
    ensures ParseNumbers(a + "." + b + "." + c, base) == base.(major := m, minor := n, patch := k)
    ensures var text := a + "." + b + "." + c; '-' !in text && !HasPrefix(text, "v") && text != []
  {
    SplitThree(a, b, c);
    ThreeNumbersArePlain(a, b, c);
  }

  /** The three printed numbers of a version are read back. */
  lemma NumbersAreReadBack(v: Version, base: Version)
    requires NumbersAreNatural(v)
    ensures ParseNumbers(Numbers(v), base) == base.(major := v.major, minor := v.minor, patch := v.patch)
    ensures '-' !in Numbers(v) && !HasPrefix(Numbers(v), "v") && Numbers(v) != []
  {
    PrintedNumberReads(v.major);
    PrintedNumberReads(v.minor);
    PrintedNumberReads(v.patch);
    ThreeNumbers(Itoa(v.major), v.major, Itoa(v.minor), v.minor, Itoa(v.patch), v.patch, base);
  }

  /** A text with a '-' after numbers is split there. */
  lemma ParseWithSuffix(numbers: string, suffix: string)
    requires '-' !in numbers && '-' !in suffix && !HasPrefix(numbers, "v") && numbers != []
    ensures Parse(numbers + "-" + suffix) == ParseNumbers(numbers, ParseIdentifier(suffix))
  {
    var text := numbers + "-" + suffix;
    assert text[..1] == numbers[..1];
    assert text[|numbers|] == '-';
    SplitAt(numbers, '-', suffix);
    SplitNone(suffix, '-');
  }

  lemma ParseWithoutSuffix(numbers: string)
    requires '-' !in numbers && !HasPrefix(numbers, "v")
    ensures Parse(numbers) == ParseNumbers(numbers, ZERO)
  {
  }

  /** What parsing makes of a suffix with a pre-release number. */
  lemma LongSuffix(identifier: string, number: string, n: int64)
    requires Plain(identifier) && Reads(number, n)
    ensures var suffix := identifier + "." + number;
      '-' !in suffix && ParseIdentifier(suffix) == ZERO.(identifier := identifier, preRelease := n)
  {
    var suffix := identifier + "." + number;
    assert suffix[|identifier|] == '.';
    SplitAt(identifier, '.', number);
    SplitNone(number, '.');
  }

  lemma Regroup(numbers: string, identifier: string, tail: string)
    ensures numbers + "-" + identifier + tail == numbers + "-" + (identifier + tail)
  {
  }

  lemma RegroupNumber(numbers: string, identifier: string, number: string)
    ensures numbers + "-" + identifier + "." + number == numbers + "-" + (identifier + "." + number)
  {
  }

  /** What parsing makes of a printed form with an identifier. */
  lemma ParsePrintedSuffix(numbers: string, identifier: string, number: string, n: int64)
    requires '-' !in numbers && !HasPrefix(numbers, "v") && numbers != []
    requires Plain(identifier) && Reads(number, n)
    ensures Parse(numbers + "-" + identifier + "." + number) == ParseNumbers(numbers, ZERO.(identifier := identifier, preRelease := n))
  {
    var suffix := identifier + "." + number;
    LongSuffix(identifier, number, n);
    ParseWithSuffix(numbers, suffix);
    RegroupNumber(numbers, identifier, number);
  }

  /** What parsing makes of the printed form: the commit, and a pre-release number without identifier, are lost. */
  lemma ParsePrinted(v: Version)
    requires WellFormed(v)
    ensures Parse(ToString(v)) == v.(commit := "", preRelease := if v.identifier == "" then 0 else v.preRelease)
  {
    if v.identifier == "" {
      NumbersAreReadBack(v, ZERO);
      ParseWithoutSuffix(Numbers(v));
    } else {
      var base := ZERO.(identifier := v.identifier, preRelease := v.preRelease);
      NumbersAreReadBack(v, base);
      PrintedNumberReads(v.preRelease);
      ParsePrintedSuffix(Numbers(v), v.identifier, Itoa(v.preRelease), v.preRelease);
    }
  }

  /** The versions whose printed form says everything about them. */
  predicate Printable(v: Version) {
    && v.commit == "" && WellFormed(v)
    && (v.identifier == "" ==> v.preRelease == 0)
  }

  /** Printing and parsing give a version back exactly when it is printable. */
  lemma RoundTrip(v: Version)
    ensures Parse(ToString(v)) == v <==> Printable(v)
  {
    ParsedIsWellFormed(ToString(v));
    if WellFormed(v) {
      ParsePrinted(v);
    }
  }

  /** The numbers of the short form. */
  function ShortNumbers(v: Version): string {
    Itoa(v.major) + "." + Itoa(v.minor) + (if v.patch > 0 then "." + Itoa(v.patch) else "")
  }

  lemma ShortNumbersAreReadBack(v: Version, base: Version)
    requires NumbersAreNatural(v) && base.patch == 0
    ensures ParseNumbers(ShortNumbers(v), base) == base.(major := v.major, minor := v.minor, patch := v.patch)
    ensures '-' !in ShortNumbers(v) && !HasPrefix(ShortNumbers(v), "v") && ShortNumbers(v) != []
  {
    var a, b, c := Itoa(v.major), Itoa(v.minor), Itoa(v.patch);
    PrintedNumberReads(v.major);
    PrintedNumberReads(v.minor);
    PrintedNumberReads(v.patch);
    TwoOrThreeNumbers(a, v.major, b, v.minor, c, v.patch, base);
  }

  lemma TwoOrThreeNumbers(a: string, m: int64, b: string, n: int64, c: string, k: int64, base: Version)
    requires Reads(a, m) && Reads(b, n) && Reads(c, k) && k >= 0 && base.patch == 0
    ensures var text := a + "." + b + (if k > 0 then "." + c else "");
      && ParseNumbers(text, base) == base.(major := m, minor := n, patch := k)
      && '-' !in text && !HasPrefix(text, "v") && text != []
  {
    if k > 0 {
      ThreeNumbers(a, m, b, n, c, k, base);
      assert a + "." + b + ("." + c) == a + "." + b + "." + c;
    } else {
      TwoNumbers(a, m, b, n, base);
      assert a + "." + b + "" == a + "." + b;
    }
  }

  /** What parsing makes of the suffix of the short form. */
  lemma ShortSuffix(identifier: string, n: int64)
    requires n >= 0 && identifier != "" && Plain(identifier)
    ensures var suffix := identifier + (if n > 0 then Itoa(n) else "");
      && Plain(suffix)
      && (identifier == "alpha" || identifier == "beta" ==> ParseIdentifier(suffix) == ZERO.(identifier := identifier, preRelease := n))
      && (ParseIdentifier(suffix).identifier == identifier ==> identifier == "alpha" || identifier == "beta")
  {
    var number := if n > 0 then Itoa(n) else "";
    var suffix := identifier + number;
    if n > 0 {
      PrintedNumberReads(n);
    }
    assert suffix[|identifier|..] == number;
    if identifier == "alpha" {
      assert suffix[..5] == "alpha";
    } else if identifier == "beta" {
      assert suffix[..4] == "beta" && suffix[0] != "alpha"[0];
    }
  }

  /** The short form says everything about versions whose identifier is empty, "alpha" or "beta", and no others. */
  predicate ShortPrintable(v: Version) {
    && v.commit == "" && NumbersAreNatural(v) && v.preRelease >= 0
    && (v.identifier == "" || v.identifier == "alpha" || v.identifier == "beta")
    && (v.identifier == "" ==> v.preRelease == 0)
  }

  lemma ShortText(v: Version, tail: string)
    requires v.identifier != "" && tail == if v.preRelease > 0 then Itoa(v.preRelease) else ""
    ensures BadString(v) == ShortNumbers(v) + "-" + (v.identifier + tail)
  {
    Regroup(ShortNumbers(v), v.identifier, tail);
    assert BadString(v) == ShortNumbers(v) + ("-" + v.identifier + tail);
  }

  /** What parsing makes of the short form of a version with an identifier. */
  lemma ParseShort(v: Version)
    requires WellFormed(v) && v.identifier != ""
    ensures
      var suffix := v.identifier + (if v.preRelease > 0 then Itoa(v.preRelease) else "");
      Parse(BadString(v)) == ParseIdentifier(suffix).(major := v.major, minor := v.minor, patch := v.patch)
  {
    var tail := if v.preRelease > 0 then Itoa(v.preRelease) else "";
    var suffix := v.identifier + tail;
    ShortSuffix(v.identifier, v.preRelease);
    ShortNumbersAreReadBack(v, ParseIdentifier(suffix));
    ParseWithSuffix(ShortNumbers(v), suffix);
    ShortText(v, tail);
  }

  lemma ParseShortNumbers(v: Version)
    requires NumbersAreNatural(v) && v.identifier == ""
    ensures Parse(BadString(v)) == v.(commit := "", preRelease := 0)
  {
    assert BadString(v) == ShortNumbers(v);
    ShortNumbersAreReadBack(v, ZERO);
    ParseWithoutSuffix(ShortNumbers(v));
  }

  lemma ShortRoundTripWithIdentifier(v: Version)
    requires WellFormed(v) && v.identifier != ""
    ensures Parse(BadString(v)) == v <==> v.commit == "" && (v.identifier == "alpha" || v.identifier == "beta")
  {
    ShortSuffix(v.identifier, v.preRelease);
    ParseShort(v);
  }

  lemma ShortPrintableIsWellFormed(v: Version)
    requires ShortPrintable(v)
    ensures WellFormed(v)
  {
  }

  lemma ShortRoundTrip(v: Version)
    ensures Parse(BadString(v)) == v <==> ShortPrintable(v)
  {
    if Parse(BadString(v)) == v {
      ParsedIsWellFormed(BadString(v));
    }
    if ShortPrintable(v) {
      ShortPrintableIsWellFormed(v);
    }
    if WellFormed(v) {
      if v.identifier == "" {
        ParseShortNumbers(v);
      } else {
        ShortRoundTripWithIdentifier(v);
      }
    }
  }

  // ---------------------------------------------------------------- order

  /** The rank `After` gives to pre-release identifiers it compares: only neighbours are compared. */
  predicate IdentifierAfter(a: string, b: string) {
    (a == "rc" && b == "beta") || (a == "beta" && b == "alpha")
  }

  predicate After(v: Version, w: Version) {
    if v.major != w.major then v.major > w.major
    else if v.minor != w.minor then v.minor > w.minor
    else if v.patch != w.patch then v.patch > w.patch
    else if v.identifier == "" || w.identifier == "" then v.identifier == "" && w.identifier != ""
    else if v.identifier == w.identifier then v.preRelease > w.preRelease
    else IdentifierAfter(v.identifier, w.identifier)
  }

  predicate SameNumbers(v: Version, w: Version) {
    v.major == w.major && v.minor == w.minor && v.patch == w.patch
  }

  /** The order is transitive except from a release candidate over a beta to an alpha of the same version. */
  lemma AfterIsAlmostTransitive(u: Version, v: Version, w: Version)
    requires After(u, v) && After(v, w)
    ensures After(u, w) <==> !(SameNumbers(u, w) && u.identifier == "rc" && w.identifier == "alpha")
    ensures !After(v, u)
  {
    assert "rc"[0] != "beta"[0] && "rc"[0] != "alpha"[0] && "beta"[0] != "alpha"[0];
  }

  /** The first pre-release of version 1.0.0 with this identifier. */
  function FirstPreRelease(identifier: string): Version {
    Version(1, 0, 0, "", identifier, 1)
  }

  lemma FirstPreReleaseIsRead(identifier: string)
    requires Plain(identifier) && identifier != ""
    ensures Parse("1.0.0-" + identifier + ".1") == FirstPreRelease(identifier)
  {
    var v := FirstPreRelease(identifier);
    assert Itoa(1) == "1" && Itoa(0) == "0";
    assert Numbers(v) == "1.0.0";
    assert "1.0.0-" + identifier + ".1" == ToString(v);
    RoundTrip(v);
  }

  lemma CandidateOverAlpha()
    ensures var rc, beta, alpha := FirstPreRelease("rc"), FirstPreRelease("beta"), FirstPreRelease("alpha");
      After(rc, beta) && After(beta, alpha) && !After(rc, alpha)
  {
    assert "rc"[0] != "beta"[0] && "rc"[0] != "alpha"[0] && "beta"[0] != "alpha"[0];
  }

  lemma PreReleaseTexts()
    ensures "1.0.0-" + "rc" + ".1" == "1.0.0-rc.1" && Plain("rc")
    ensures "1.0.0-" + "beta" + ".1" == "1.0.0-beta.1" && Plain("beta")
    ensures "1.0.0-" + "alpha" + ".1" == "1.0.0-alpha.1" && Plain("alpha")
  {
  }

  /** The failing chain, as three version texts. */
  lemma CandidateIsNotAfterAlpha()
    ensures After(Parse("1.0.0-rc.1"), Parse("1.0.0-beta.1"))
    ensures After(Parse("1.0.0-beta.1"), Parse("1.0.0-alpha.1"))
    ensures !After(Parse("1.0.0-rc.1"), Parse("1.0.0-alpha.1"))
  {
    PreReleaseTexts();
    FirstPreReleaseIsRead("rc");
    FirstPreReleaseIsRead("beta");
    FirstPreReleaseIsRead("alpha");
    CandidateOverAlpha();
  }

  lemma ParseAfterV(text: string)
    requires !HasPrefix(text, "v")
    ensures Parse("v" + text) == Parse(text)
  {
    var long := "v" + text;
    assert long[..1] == "v" && long[1..] == text;
  }

  /** A leading "v" makes no difference to a printed version. */
  lemma LeadingVIsDropped(v: Version)
    ensures Parse("v" + ToString(v)) == Parse(ToString(v))
  {
    PrintedStart(v);
    ParseAfterV(ToString(v));
  }

  lemma ItoaStart(n: int)
    ensures Itoa(n) != [] && (IsDigit(Itoa(n)[0]) || Itoa(n)[0] == '-')
  {
  }

  lemma PrintedStart(v: Version)
    ensures !HasPrefix(ToString(v), "v")
  {
    ItoaStart(v.major);
    assert Numbers(v)[0] == Itoa(v.major)[0];
    assert ToString(v)[0] == Numbers(v)[0];
  }

  lemma SmallNumbers()
    ensures Itoa(0) == "0" && Itoa(1) == "1" && Itoa(2) == "2" && Itoa(3) == "3" && Itoa(4) == "4"
  {
  }

  /** The texts of a version, which numbers are where. */
  lemma VersionTexts()
    ensures ToString(Version(1, 2, 3, "", "beta", 4)) == "1.2.3-beta.4" && BadString(Version(1, 2, 3, "", "beta", 4)) == "1.2.3-beta4"
    ensures ToString(Version(1, 2, 0, "", "", 0)) == "1.2.0" && BadString(Version(1, 2, 0, "", "", 0)) == "1.2"
    ensures BadString(Version(1, 2, 0, "", "alpha", 0)) == "1.2-alpha"
  {
    SmallNumbers();
  }

  /** A suffix that is no pre-release is the commit. */
  lemma CommitIsRead(v: Version, commit: string)
    requires NumbersAreNatural(v) && Plain(commit) && !HasPrefix(commit, "alpha") && !HasPrefix(commit, "beta")
    ensures Parse(Numbers(v) + "-" + commit) == Version(v.major, v.minor, v.patch, commit, "", 0)
  {
    NumbersAreReadBack(v, ParseIdentifier(commit));
    ParseWithSuffix(Numbers(v), commit);
  }

  /** Versions are compared number by number, then a release goes before its pre-releases, then by their number. */
  lemma AfterIsLexicographic(v: Version, w: Version)
    ensures v.major > w.major ==> After(v, w) && !After(w, v)
    ensures v.major == w.major && v.minor > w.minor ==> After(v, w) && !After(w, v)
    ensures v.major == w.major && v.minor == w.minor && v.patch > w.patch ==> After(v, w) && !After(w, v)
    ensures SameNumbers(v, w) && v.identifier == "" && w.identifier != "" ==> After(v, w) && !After(w, v)
    ensures SameNumbers(v, w) && v.identifier == w.identifier != "" ==> (After(v, w) <==> v.preRelease > w.preRelease)
    ensures SameNumbers(v, w) && v.identifier == w.identifier == "" ==> !After(v, w)
  {
  }
}
