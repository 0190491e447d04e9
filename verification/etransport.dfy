/** The e-Transport flat and wire documents (src/anafpy/etransport/models.py): their data,
    the numeral printer and parser, and the code checks. */
module ETransportModels {
  import opened Numerals
  import opened Text
  import opened Wrappers

  // ---- Numerals ------------------------------------------------------------------------

  /** `_num`: an amount, given in hundredths, at two decimals. */
  function Num(hundredths: nat): string {
    Show(hundredths / 100) + "." + Pad2(hundredths % 100)
  }

  function IntegerPart(s: string): string {
    if s == "" || s[0] == '.' then "" else [s[0]] + IntegerPart(s[1..])
  }

  function FractionPart(s: string): string {
    if s == "" then "" else if s[0] == '.' then s[1..] else FractionPart(s[1..])
  }

  /** `Decimal(s)` of a plain numeral, held to two decimals (trailing zeros aside), in
      hundredths. `None` is a refusal. */
  function ParseAmount(s: string): Option<nat> {
    var i, f := IntegerPart(s), FractionPart(s);
    if (i == "" && f == "") || !AllDigits(i) || !AllDigits(f) then None
    else
      var padded := f + "00";
      if exists k :: 2 <= k < |f| && f[k] != '0' then None
      else Some(Value(i) * 100 + Value(padded[..2]))
  }

  lemma {:induction false} SplitAtPoint(i: string, f: string)
    requires '.' !in i
    ensures IntegerPart(i + "." + f) == i && FractionPart(i + "." + f) == f
  {
    var s := i + "." + f;
    if i == "" {
      assert s[0] == '.' && s[1..] == f;
    } else {
      assert s[0] == i[0] && s[1..] == i[1..] + "." + f;
      SplitAtPoint(i[1..], f);
    }
  }

  /** Parsing a printed amount gives it back, for every amount. */
  lemma ParseNum(hundredths: nat)
    ensures ParseAmount(Num(hundredths)) == Some(hundredths)
  {
    var i, f := Show(hundredths / 100), Pad2(hundredths % 100);
    ShowIsDigits(hundredths / 100);
    ValueOfShow(hundredths / 100);
    SplitAtPoint(i, f);
    assert (f + "00")[..2] == f;
    ValueOfPad2(hundredths % 100);
  }

  /** A plain decimal numeral, and its digits before and after the point. */
  predicate Numeral(s: string, i: string, f: string) {
    && AllDigits(i) && AllDigits(f) && (i != "" || f != "")
    && (s == i + "." + f || (s == i && f == ""))
  }

  /** What a numeral is read as: with the point moved two places, exactly the number its
      digits denote; and it is read exactly when nothing but zeros follows the second
      decimal. */
  lemma ParsedExactly(s: string, i: string, f: string)
    requires Numeral(s, i, f)
    ensures ParseAmount(s).Some? <==> forall k | 2 <= k < |f| :: f[k] == '0'
    ensures AllDigits(i + f) && (ParseAmount(s).Some? ==> ParseAmount(s).value * Pow10(|f|) == 100 * Value(i + f))
  {
    ReadWhen(s, i, f);
    ValueConcat(i, f);
    if ParseAmount(s).Some? {
      PaddedValue(f);
      Combine(Value(i), Value((f + "00")[..2]), Pow10(|f|), Value(f));
    }
  }

  lemma ReadWhen(s: string, i: string, f: string)
    requires Numeral(s, i, f)
    ensures AllDigits((f + "00")[..2])
    ensures ParseAmount(s) == if forall k | 2 <= k < |f| :: f[k] == '0' then Some(Value(i) * 100 + Value((f + "00")[..2])) else None
  {
    ParsedParts(s, i, f);
  }

  lemma Combine(i: nat, p: nat, scale: nat, f: nat)
    requires p * scale == 100 * f
    ensures (i * 100 + p) * scale == 100 * (i * scale + f)
  {
    assert (i * 100 + p) * scale == i * 100 * scale + p * scale;
    assert i * 100 * scale == 100 * (i * scale);
  }

  lemma ParsedParts(s: string, i: string, f: string)
    requires Numeral(s, i, f)
    ensures IntegerPart(s) == i && FractionPart(s) == f
  {
    if s == i + "." + f {
      SplitAtPoint(i, f);
    } else {
      NoPoint(i);
    }
  }

  lemma {:induction false} NoPoint(i: string)
    requires '.' !in i
    ensures IntegerPart(i) == i && FractionPart(i) == ""
  {
    if i == "" {
    } else {
      NoPoint(i[1..]);
      assert i == [i[0]] + i[1..];
    }
  }

  /** The first two decimals, scaled, are all of them. */
  lemma PaddedValue(f: string)
    requires AllDigits(f) && forall k | 2 <= k < |f| :: f[k] == '0'
    ensures AllDigits((f + "00")[..2]) && Value((f + "00")[..2]) * Pow10(|f|) == 100 * Value(f)
  {
    if |f| < 2 {
      ShortFraction(f);
    } else {
      SplitAtTwo(f);
      LongFraction(f[..2], f[2..]);
    }
  }

  lemma SplitAtTwo(f: string)
    requires |f| >= 2 && AllDigits(f) && forall k | 2 <= k < |f| :: f[k] == '0'
    ensures (f + "00")[..2] == f[..2] && f == f[..2] + f[2..]
    ensures AllDigits(f[..2]) && forall k | 0 <= k < |f[2..]| :: f[2..][k] == '0'
  {
  }

  lemma ShortFraction(f: string)
    requires AllDigits(f) && |f| < 2
    ensures AllDigits((f + "00")[..2]) && Value((f + "00")[..2]) * Pow10(|f|) == 100 * Value(f)
  {
    var zeros := if |f| == 0 then "00" else "0";
    assert (f + "00")[..2] == f + zeros;
    ValueOfZeros(zeros);
    ValueConcat(f, zeros);
    HundredTimes(0);
  }

  lemma LongFraction(p: string, rest: string)
    requires |p| == 2 && AllDigits(p) && forall k | 0 <= k < |rest| :: rest[k] == '0'
    ensures AllDigits(p + rest) && Value(p) * Pow10(|p + rest|) == 100 * Value(p + rest)
  {
    ValueOfZeros(rest);
    ValueConcat(p, rest);
    HundredTimes(|rest|);
    assert Value(p) * (100 * Pow10(|rest|)) == 100 * (Value(p) * Pow10(|rest|));
  }

  /** Only plain numerals are read. */
  lemma OnlyNumeralsParse(s: string) returns (i: string, f: string)
    requires ParseAmount(s).Some?
    ensures Numeral(s, i, f)
  {
    i, f := IntegerPart(s), FractionPart(s);
    PartsOf(s);
  }

  lemma {:induction false} PartsOf(s: string)
    ensures s == IntegerPart(s) + "." + FractionPart(s) || (s == IntegerPart(s) && FractionPart(s) == "")
  {
    if s == "" || s[0] == '.' {
      assert s != "" ==> s == "" + "." + s[1..];
    } else {
      PartsOf(s[1..]);
      assert s == [s[0]] + s[1..];
      if s[1..] == IntegerPart(s[1..]) + "." + FractionPart(s[1..]) {
        assert s == ([s[0]] + IntegerPart(s[1..])) + "." + FractionPart(s[1..]);
      }
    }
  }

  /** A printed amount has exactly two decimals, and no superfluous zero before the point. */
  lemma NumShape(hundredths: nat) returns (i: string, f: string)
    ensures Numeral(Num(hundredths), i, f) && |f| == 2 && Num(hundredths) == i + "." + f
    ensures i != "" && (|i| > 1 ==> i[0] != '0') && Value(i + f) == hundredths
  {
    i, f := Show(hundredths / 100), Pad2(hundredths % 100);
    ShowIsDigits(hundredths / 100);
    ShowIsCanonical(hundredths / 100);
    ValueOfShow(hundredths / 100);
    ValueOfPad2(hundredths % 100);
    ValueConcat(i, f);
    HundredTimes(0);
    assert hundredths / 100 * 100 + hundredths % 100 == hundredths;
  }

  /** Two numerals denote the same number. */
  ghost predicate SameNumber(s: string, t: string) {
    forall i, f, i', f' | Numeral(s, i, f) && Numeral(t, i', f') :: Value(i + f) * Pow10(|f'|) == Value(i' + f') * Pow10(|f|)
  }

  /** Only the spelling of a numeral is canonicalised, never the number it denotes. */
  function CanonNumeral(s: string): string {
    match ParseAmount(s)
    case None => s
    case Some(h) => Num(h)
  }

  lemma CanonNumeralKeepsValue(s: string)
    ensures ParseAmount(CanonNumeral(s)) == ParseAmount(s) && CanonNumeral(CanonNumeral(s)) == CanonNumeral(s)
    ensures ParseAmount(s).Some? ==> SameNumber(s, CanonNumeral(s))
  {
    if ParseAmount(s).Some? {
      ParseNum(ParseAmount(s).value);
      SameAmountSameNumber(s, CanonNumeral(s));
    }
  }

  lemma SameAmountSameNumber(s: string, t: string)
    requires ParseAmount(s).Some? && ParseAmount(s) == ParseAmount(t)
    ensures SameNumber(s, t)
  {
    var h := ParseAmount(s).value;
    forall i, f, i', f' | Numeral(s, i, f) && Numeral(t, i', f')
      ensures AllDigits(i + f) && AllDigits(i' + f') && Value(i + f) * Pow10(|f'|) == Value(i' + f') * Pow10(|f|)
    {
      ParsedExactly(s, i, f);
      ParsedExactly(t, i', f');
      CrossMultiply(h, Value(i + f), Pow10(|f|), Value(i' + f'), Pow10(|f'|));
    }
  }

  lemma CrossMultiply(h: nat, a: nat, p: nat, b: nat, q: nat)
    requires h * p == 100 * a && h * q == 100 * b
    ensures a * q == b * p
  {
    assert (h * p) * q == (100 * a) * q == 100 * (a * q);
    assert (h * q) * p == (100 * b) * p == 100 * (b * p);
    assert (h * p) * q == (h * q) * p;
  }

  // ---- Codes -----------------------------------------------------------------------------

  predicate IsSeparator(c: char) {
    IsSpace(c) || c == '.' || c == '-'
  }

  function Upper(c: char): char {
    if 'a' <= c <= 'z' then ((c as int) - 32) as char else c
  }

  /** `_clean_code`: separators dropped, upper-cased (ASCII letters). */
  function CleanCode(s: string): string {
    if s == "" then ""
    else if IsSeparator(s[0]) then CleanCode(s[1..])
    else [Upper(s[0])] + CleanCode(s[1..])
  }

  /** Cleaning works character by character: white space, dots and dashes go, letters are
      upper-cased, and anything else stays. */
  lemma {:induction false} CleanCodeConcat(a: string, b: string)
    ensures CleanCode(a + b) == CleanCode(a) + CleanCode(b)
  {
    if a == "" {
      assert a + b == b;
    } else {
      assert (a + b)[0] == a[0] && (a + b)[1..] == a[1..] + b;
      CleanCodeConcat(a[1..], b);
    }
  }

  lemma CleanCharacter(c: char)
    ensures IsSpace(c) || c in {'.', '-'} ==> CleanCode([c]) == ""
    ensures 'a' <= c <= 'z' ==> CleanCode([c]) == [(c as int - 'a' as int + 'A' as int) as char]
    ensures !IsSpace(c) && c !in {'.', '-'} && !('a' <= c <= 'z') ==> CleanCode([c]) == [c]
    ensures IsSpace(' ') && IsSpace('\t') && IsSpace('\n') && !IsSpace('A') && !IsSpace('0')
  {
    assert [c][1..] == "";
  }

  /** The alphabet of a UIT: digits, and the capital letters but for six that look like
      others. */
  lemma AlphabetExactly(c: char)
    ensures InUitAlphabet(c) <==> IsDigit(c) || ('A' <= c <= 'Z' && c !in {'B', 'G', 'I', 'O', 'S', 'Z'})
  {
  }

  predicate InUitAlphabet(c: char) {
    c in "0123456789ACDEFHJKLMNPQRTUVWXY"
  }

  predicate IsPlate(s: string) {
    2 <= |s| <= 20 && forall i | 0 <= i < |s| :: IsDigit(s[i]) || 'A' <= s[i] <= 'Z'
  }

  function AsciiSum(s: string): nat {
    if s == "" then 0 else AsciiSum(s[..|s| - 1]) + s[|s| - 1] as int
  }

  function LastTwo(s: string): string {
    if |s| <= 2 then s else s[|s| - 2..]
  }

  predicate UitShape(s: string) {
    && |s| == 16
    && (forall i | 0 <= i < 14 :: InUitAlphabet(s[i]))
    && IsDigit(s[14]) && IsDigit(s[15])
  }

  /** Pattern, then the check digits as the source computes them: the last two characters
      of the printed sum. */
  predicate IsUit(s: string) {
    UitShape(s) && s[14..] == LastTwo(Show(AsciiSum(s[..14])))
  }

  lemma {:induction false} CleanCodeIdempotent(s: string)
    ensures CleanCode(CleanCode(s)) == CleanCode(s)
    ensures forall i | 0 <= i < |CleanCode(s)| :: !IsSeparator(CleanCode(s)[i]) && Upper(CleanCode(s)[i]) == CleanCode(s)[i]
  {
    if s == "" {
    } else {
      CleanCodeIdempotent(s[1..]);
      if !IsSeparator(s[0]) {
        var rest := CleanCode(s[1..]);
        assert CleanCode(s) == [Upper(s[0])] + rest;
        assert CleanCode(s)[0] == Upper(s[0]) && CleanCode(s)[1..] == rest;
        assert !IsSeparator(Upper(s[0]));
      }
    }
  }

  /** Cleaning cannot change a code already in the alphabet. */
  lemma {:induction false} CleanCodeKeepsClean(s: string)
    requires forall i | 0 <= i < |s| :: IsDigit(s[i]) || 'A' <= s[i] <= 'Z'
    ensures CleanCode(s) == s
  {
    if s == "" {
    } else {
      CleanCodeKeepsClean(s[1..]);
      assert s == [s[0]] + s[1..];
    }
  }

  /** Plates are the clean codes of ASCII letters and digits, of 2 to 20 characters. */
  lemma PlatesAreClean(s: string)
    requires 2 <= |s| <= 20
    ensures IsPlate(s) <==> CleanCode(s) == s && forall i | 0 <= i < |s| :: IsDigit(s[i]) || 'a' <= s[i] <= 'z' || 'A' <= s[i] <= 'Z'
  {
    if IsPlate(s) {
      CleanCodeKeepsClean(s);
    }
    CleanCodeIdempotent(s);
  }

  lemma UitIsClean(s: string)
    requires UitShape(s)
    ensures CleanCode(s) == s
  {
    CleanCodeKeepsClean(s);
  }

  lemma {:induction false} AsciiSumBounds(s: string)
    requires forall i | 0 <= i < |s| :: InUitAlphabet(s[i])
    ensures 48 * |s| <= AsciiSum(s) <= 89 * |s|
  {
    if s == "" {
    } else {
      AlphabetRange(s[|s| - 1]);
      AsciiSumBounds(s[..|s| - 1]);
    }
  }

  /** The string slice is the zero-padded sum modulo 100, because the sum of fourteen
      alphabet characters is at least 672. */
  lemma UitCheckIsSumMod100(s: string)
    requires UitShape(s)
    ensures 672 <= AsciiSum(s[..14]) <= 1246
    ensures IsUit(s) <==> s[14..] == Pad2(AsciiSum(s[..14]) % 100)
  {
    AsciiSumBounds(s[..14]);
    LastTwoOfShow(AsciiSum(s[..14]));
  }

  lemma {:induction false} AsciiSumChange(s: string, i: nat, c: char)
    requires i < |s|
    ensures AsciiSum(s[i := c]) == AsciiSum(s) - s[i] as int + c as int
  {
    var t := s[i := c];
    if i < |s| - 1 {
      AsciiSumChange(s[..|s| - 1], i, c);
      assert t[..|s| - 1] == s[..|s| - 1][i := c];
    } else {
      assert t[..|s| - 1] == s[..|s| - 1];
    }
  }

  lemma AlphabetRange(c: char)
    requires InUitAlphabet(c)
    ensures 48 <= c as int <= 89
  {
  }

  lemma BodyChangeMovesSum(s: string, i: nat, c: char)
    requires |s| == 16 && i < 14
    ensures s[i := c][14..] == s[14..]
    ensures AsciiSum(s[i := c][..14]) == AsciiSum(s[..14]) - s[i] as int + c as int
  {
    assert s[i := c][..14] == s[..14][i := c];
    AsciiSumChange(s[..14], i, c);
  }

  lemma BodyChangeBreaksCheck(s: string, i: nat, c: char)
    requires IsUit(s) && i < 14 && c != s[i] && UitShape(s[i := c])
    ensures !IsUit(s[i := c])
  {
    UitCheckIsSumMod100(s);
    UitCheckIsSumMod100(s[i := c]);
    BodyChangeMovesSum(s, i, c);
    assert InUitAlphabet(s[i := c][i]);
    AlphabetRange(c);
    AlphabetRange(s[i]);
    CloseSumsDiffer(AsciiSum(s[..14]), AsciiSum(s[i := c][..14]));
  }

  lemma CloseSumsDiffer(a: nat, b: nat)
    requires a != b && -100 < a - b < 100
    ensures Pad2(a % 100) != Pad2(b % 100)
  {
  }

  /** No single mistyped character of a UIT goes unnoticed. */
  lemma OneMistypedCharacter(s: string, i: nat, c: char)
    requires IsUit(s) && i < 16 && c != s[i]
    ensures !IsUit(s[i := c])
  {
    var t := s[i := c];
    if i < 14 {
      if UitShape(t) {
        BodyChangeBreaksCheck(s, i, c);
      }
    } else {
      assert t[..14] == s[..14];
      assert t[14..][i - 14] != s[14..][i - 14];
    }
  }

  /** Two distinct valid UITs differ in at least two positions. */
  lemma UitsDifferTwice(s: string, t: string)
    requires IsUit(s) && IsUit(t) && s != t
    ensures exists i, j :: 0 <= i < j < 16 && s[i] != t[i] && s[j] != t[j]
  {
    var i :| 0 <= i < 16 && s[i] != t[i];
    OneMistypedCharacter(s, i, t[i]);
    assert s[i := t[i]] != t;
    var j :| 0 <= j < 16 && s[i := t[i]][j] != t[j];
    assert j != i && s[j] != t[j];
    if i < j {
      assert s[i] != t[i] && s[j] != t[j];
    } else {
      assert s[j] != t[j] && s[i] != t[i];
    }
  }

  // ---- Flat documents ------------------------------------------------------------------------

  /** Days and instants as both models carry them. Enum members are their ANAF codes. */
  datatype Day = Day(year: int, month: int, day: int)
  datatype Moment = Moment(second: int, micros: nat, offset: Option<int>)

  datatype Partner = Partner(name: string, country: string, code: Option<string>)
  datatype Vehicle = Vehicle(plate: string, trailer1: Option<string>, trailer2: Option<string>,
                             carrierName: string, carrierCountry: string, carrierCode: Option<string>, transportDate: Day)
  datatype Address = Address(county: int, locality: string, street: string, number: Option<string>, block: Option<string>,
                             entrance: Option<string>, floor: Option<string>, apartment: Option<string>,
                             postalCode: Option<string>, other: Option<string>)
  datatype Location = Location(borderPoint: Option<int>, customsOffice: Option<int>, address: Option<Address>)
  datatype Good = Good(scope: int, name: string, quantity: int, unitCode: string, grossWeight: int,
                       netWeight: Option<int>, tariffCode: Option<string>, valueRon: Option<int>, lineRef: Option<string>)
  datatype Document = Document(docType: int, date: Day, number: Option<string>, note: Option<string>)
  datatype PriorNotification = PriorNotification(uit: string, note: Option<string>, declarantRef: Option<string>)

  datatype Root = Root(declarantCode: Option<string>, declarantRef: Option<string>, postIncident: bool)

  datatype Operation =
    | Transport(operationType: int, correctionOf: Option<string>, partner: Partner, vehicle: Vehicle,
                start: Location, end: Location, goods: seq<Good>, documents: seq<Document>, prior: seq<PriorNotification>)
    | Deletion(uit: string)
    | Confirmation(uit: string, confirmationType: int, note: Option<string>)
    | VehicleChange(uit: string, plate: string, trailer1: Option<string>, trailer2: Option<string>,
                    changedAt: Option<Moment>, note: Option<string>)

  datatype Flat = Flat(root: Root, operation: Operation)

  // ---- What the flat models accept -----------------------------------------------------------

  const ALTELE := 9999
  const AMOUNT_LIMIT := 100_000_000_000_000  // 10^12, in hundredths

  predicate Sized(s: string, lo: nat, hi: nat) {
    lo <= |s| <= hi
  }

  predicate SizedIfAny(s: Option<string>, hi: nat) {
    s.Some? ==> Sized(s.value, 1, hi)
  }

  predicate IsCountry(c: string) {
    |c| == 2 && c != "AN"
  }

  predicate IsDeclarantCode(s: string) {
    AllDigits(s) && (2 <= |s| <= 10 || |s| == 13) && s[0] != '0'
  }

  predicate PlateIfAny(s: Option<string>) {
    s.Some? ==> IsPlate(s.value)
  }

  predicate IsQuantity(hundredths: int) {
    0 < hundredths < AMOUNT_LIMIT
  }

  predicate ValidPartner(p: Partner) {
    Sized(p.name, 1, 200) && IsCountry(p.country) && SizedIfAny(p.code, 30)
  }

  predicate ValidVehicle(v: Vehicle) {
    && IsPlate(v.plate) && PlateIfAny(v.trailer1) && PlateIfAny(v.trailer2)
    && Sized(v.carrierName, 1, 200) && IsCountry(v.carrierCountry) && SizedIfAny(v.carrierCode, 30)
  }

  predicate ValidAddress(a: Address) {
    && Sized(a.locality, 2, 100) && Sized(a.street, 2, 100) && SizedIfAny(a.number, 20) && SizedIfAny(a.block, 30)
    && SizedIfAny(a.entrance, 20) && SizedIfAny(a.floor, 20) && SizedIfAny(a.apartment, 20)
    && SizedIfAny(a.postalCode, 20) && SizedIfAny(a.other, 200)
  }

  predicate ValidLocation(l: Location) {
    && (if l.borderPoint.Some? then l.customsOffice.None? && l.address.None?
        else l.customsOffice.Some? <==> l.address.None?)
    && (l.address.Some? ==> ValidAddress(l.address.value))
  }

  predicate ValidGood(g: Good) {
    && Sized(g.name, 1, 200) && IsQuantity(g.quantity) && IsQuantity(g.grossWeight)
    && (g.netWeight.Some? ==> IsQuantity(g.netWeight.value) && g.grossWeight >= g.netWeight.value)
    && Sized(g.unitCode, 2, 3) && (forall i | 0 <= i < |g.unitCode| :: IsDigit(g.unitCode[i]) || 'A' <= g.unitCode[i] <= 'Z')
    && (g.tariffCode.Some? ==> AllDigits(g.tariffCode.value) && |g.tariffCode.value| in {4, 6, 8})
    && (g.valueRon.Some? ==> 0 <= g.valueRon.value < AMOUNT_LIMIT)
    && SizedIfAny(g.lineRef, 50)
  }

  predicate ValidDocument(d: Document) {
    SizedIfAny(d.number, 50) && SizedIfAny(d.note, 200) && (d.docType == ALTELE ==> d.note.Some?)
  }

  predicate ValidPrior(p: PriorNotification) {
    IsUit(p.uit) && SizedIfAny(p.note, 200) && SizedIfAny(p.declarantRef, 50)
  }

  predicate ValidRoot(r: Root) {
    (r.declarantCode.Some? ==> IsDeclarantCode(r.declarantCode.value)) && SizedIfAny(r.declarantRef, 50)
  }

  predicate ValidOperation(o: Operation) {
    match o
    case Transport(_, correctionOf, partner, vehicle, start, end, goods, documents, prior) =>
      && (correctionOf.Some? ==> IsUit(correctionOf.value))
      && ValidPartner(partner) && ValidVehicle(vehicle) && ValidLocation(start) && ValidLocation(end)
      && goods != [] && (forall i | 0 <= i < |goods| :: ValidGood(goods[i]))
      && documents != [] && (forall i | 0 <= i < |documents| :: ValidDocument(documents[i]))
      && (forall i | 0 <= i < |prior| :: ValidPrior(prior[i]))
    case Deletion(uit) => IsUit(uit)
    case Confirmation(uit, _, note) => IsUit(uit) && SizedIfAny(note, 200)
    case VehicleChange(uit, plate, trailer1, trailer2, changedAt, note) =>
      && IsUit(uit) && IsPlate(plate) && PlateIfAny(trailer1) && PlateIfAny(trailer2)
      && (changedAt.Some? ==> changedAt.value.micros < 1_000_000) && SizedIfAny(note, 200)
  }

  predicate ValidFlat(f: Flat) {
    ValidRoot(f.root) && ValidOperation(f.operation)
  }

  /** Exactly one kind of place. */
  lemma LocationExactly(l: Location)
    ensures ValidLocation(l) <==>
            && Count(l.borderPoint.Some?) + Count(l.customsOffice.Some?) + Count(l.address.Some?) == 1
            && (l.address.Some? ==> ValidAddress(l.address.value))
  {
  }

  function Count(b: bool): nat {
    if b then 1 else 0
  }

  /** A declarant is a CUI of two to ten digits or a CNP of thirteen, without leading zeros. */
  lemma DeclarantExactly(s: string)
    requires AllDigits(s) && s != ""
    ensures IsDeclarantCode(s) <==> |s| in {2, 3, 4, 5, 6, 7, 8, 9, 10, 13} && Value(s) >= Pow10(|s| - 1)
  {
    LeadingDigit(s);
  }

  lemma {:induction false} LeadingDigit(s: string)
    requires AllDigits(s) && s != ""
    ensures Value(s) >= Pow10(|s| - 1) <==> s[0] != '0'
    ensures Value(s) < Pow10(|s|)
  {
    var front := s[..|s| - 1];
    if |s| == 1 {
      assert Pow10(0) == 1;
      assert Pow10(1) == 10 * Pow10(0);
      assert front == "" && Value(s) == DigitValue(s[0]);
    } else {
      LeadingDigit(front);
      assert Pow10(|s|) == 10 * Pow10(|front|) && Pow10(|front|) == 10 * Pow10(|front| - 1);
    }
  }

  /** Amounts are positive and have at most twelve digits before the point; a line's net
      weight never exceeds its gross weight; its codes have their lengths. */
  lemma GoodExactly(g: Good)
    ensures ValidGood(g) <==>
            && 1 <= |g.name| <= 200 && 0 < g.quantity <= 99_999_999_999_999 && 0 < g.grossWeight <= 99_999_999_999_999
            && (g.netWeight.Some? ==> 0 < g.netWeight.value <= g.grossWeight)
            && (g.valueRon.Some? ==> 0 <= g.valueRon.value <= 99_999_999_999_999)
            && (|g.unitCode| == 2 || |g.unitCode| == 3) && (forall i | 0 <= i < |g.unitCode| :: '0' <= g.unitCode[i] <= '9' || 'A' <= g.unitCode[i] <= 'Z')
            && (g.tariffCode.Some? ==> (|g.tariffCode.value| == 4 || |g.tariffCode.value| == 6 || |g.tariffCode.value| == 8) && AllDigits(g.tariffCode.value))
            && (g.lineRef.Some? ==> 1 <= |g.lineRef.value| <= 50)
  {
  }

  /** A document called "other" says what it is. */
  lemma DocumentExactly(d: Document)
    ensures ValidDocument(d) <==>
            && (d.number.Some? ==> 1 <= |d.number.value| <= 50) && (d.note.Some? ==> 1 <= |d.note.value| <= 200)
            && !(d.docType == 9999 && d.note.None?)
  {
  }

  // ---- Wire documents -----------------------------------------------------------------------

  datatype XmlDate = XmlDate(day: Day, offset: Option<int>)
  datatype XmlDateTime = XmlDateTime(second: int, nanos: nat, offset: Option<int>)

  datatype Bunuri = Bunuri(codScop: int, codTarifar: Option<string>, denumire: string, cantitate: string, codUnitate: string,
                           greutateNeta: Option<string>, greutateBruta: string, valoare: Option<string>, refDeclarant: Option<string>)
  datatype Partener = Partener(codTara: string, cod: Option<string>, denumire: string)
  datatype DateTransport = DateTransport(nrVehicul: string, nrRemorca1: Option<string>, nrRemorca2: Option<string>,
                                         codTaraOrg: string, codOrg: Option<string>, denumireOrg: string, dataTransport: XmlDate)
  datatype Locatie = Locatie(codJudet: int, localitate: string, strada: string, numar: Option<string>, bloc: Option<string>,
                             scara: Option<string>, etaj: Option<string>, apartament: Option<string>,
                             codPostal: Option<string>, alteInfo: Option<string>)
  datatype LocTraseu = LocTraseu(locatie: Option<Locatie>, codPtf: Option<int>, codBirouVamal: Option<int>)
  datatype DocumentTransport = DocumentTransport(tip: int, numar: Option<string>, data: XmlDate, observatii: Option<string>)
  datatype NotificareAnterioara = NotificareAnterioara(uit: string, observatii: Option<string>, refDeclarant: Option<string>)

  datatype Notificare = Notificare(codTipOperatiune: int, corectie: Option<string>, bunuri: seq<Bunuri>, partener: Partener,
                                   dateTransport: DateTransport, locStart: LocTraseu, locFinal: LocTraseu,
                                   documente: seq<DocumentTransport>, anterioare: seq<NotificareAnterioara>)
  datatype Confirmare = Confirmare(uit: string, tip: int, observatii: Option<string>)
  datatype ModifVehicul = ModifVehicul(uit: string, nrVehicul: string, nrRemorca1: Option<string>, nrRemorca2: Option<string>,
                                       dataModificare: XmlDateTime, observatii: Option<string>)

  datatype ETransport = ETransport(codDeclarant: string, refDeclarant: Option<string>, declPostAvarie: bool,
                                   notificare: Option<Notificare>, stergere: Option<string>,
                                   confirmare: Option<Confirmare>, modifVehicul: Option<ModifVehicul>)
}
