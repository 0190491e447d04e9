/** The payment-evidence number (src/anafpy/declaratii/nr_evid.py): 23 digits with a
    checksum of their own. */
module EvidenceNumber {
  import opened Wrappers
  import opened Numerals

  datatype Date = Date(day: nat, month: nat, year: nat)

  datatype Error = UnknownSettlement | BadMonth | BadYear | BadCode | DateOutOfRange

  /** What the number encodes; years keep only their last two digits. */
  datatype Fields = Fields(prefix: string, code: string, month: nat, year2: nat,
                           dueDay: nat, dueMonth: nat, dueYear2: nat, flag: nat)

  /** A `datetime.date`, as far as the layout depends on it. */
  predicate IsDate(d: Date) {
    1 <= d.day <= 31 && 1 <= d.month <= 12 && 1 <= d.year <= 9999
  }

  predicate IsCode(code: string) {
    |code| == 3 && AllDigits(code)
  }

  predicate Encodable(f: Fields) {
    && (f.prefix == "10" || f.prefix == "11")
    && IsCode(f.code)
    && 1 <= f.month <= 12 && f.year2 < 100
    && 1 <= f.dueDay <= 31 && 1 <= f.dueMonth <= 12 && f.dueYear2 < 100
    && f.flag <= 1
  }

  function DigitSum(s: string): nat
    requires AllDigits(s)
  {
    if s == [] then 0 else DigitSum(s[..|s| - 1]) + DigitValue(s[|s| - 1])
  }

  function Period(f: Fields): (s: string)
    requires Encodable(f)
    ensures |s| == 4 && AllDigits(s)
  {
    Pad2(f.month) + Pad2(f.year2)
  }

  function DueDate(f: Fields): (s: string)
    requires Encodable(f)
    ensures |s| == 6 && AllDigits(s)
  {
    Pad2(f.dueDay) + Pad2(f.dueMonth) + Pad2(f.dueYear2)
  }

  /** The first 21 characters. */
  function Body(f: Fields): string
    requires Encodable(f)
  {
    f.prefix + f.code + "01" + Period(f) + DueDate(f) + [DigitChar(f.flag)] + "000"
  }

  function Compose(f: Fields): string
    requires Encodable(f)
  {
    BodyShape(f);
    Body(f) + Pad2(DigitSum(Body(f)) % 100)
  }

  lemma BodyShape(f: Fields)
    requires Encodable(f)
    ensures |Body(f)| == 21 && AllDigits(Body(f))
  {
    var head := f.prefix + f.code + "01";
    assert |head| == 7 && AllDigits(head);
    var tail := [DigitChar(f.flag)] + "000";
    assert |tail| == 4 && AllDigits(tail);
    assert Body(f) == head + Period(f) + DueDate(f) + tail;
  }

  // ---- The four public composers ---------------------------------------------------------

  /** The 25th of the month after; `date()` itself refuses the year 10000. */
  function DueOn25th(month: int, year: int): Result<Date, Error>
    requires 1 <= month <= 12 && year >= 1
  {
    var (m, y) := if month + 1 > 12 then (1, year + 1) else (month + 1, year);
    if y > 9999 then Err(DateOutOfRange) else Ok(Date(25, m, y))
  }

  function CodImp(tipDecont: string): Option<string> {
    if tipDecont == "L" then Some("301")
    else if tipDecont == "T" then Some("302")
    else if tipDecont == "S" then Some("303")
    else if tipDecont == "A" then Some("304")
    else None
  }

  function FieldsOf(prefix: string, code: string, month: nat, year: nat, due: Date, flag: nat): Fields {
    Fields(prefix, code, month, year % 100, due.day, due.month, due.year % 100, flag)
  }

  function CheckPeriod(month: int, year: int): Option<Error> {
    if !(1 <= month <= 12) then Some(BadMonth) else if !(1000 <= year <= 9999) then Some(BadYear) else None
  }

  /** D300. */
  function PaymentEvidenceNumber(tipDecont: string, month: int, year: int): Result<string, Error> {
    if CodImp(tipDecont).None? then Err(UnknownSettlement)
    else if CheckPeriod(month, year).Some? then Err(CheckPeriod(month, year).value)
    else match DueOn25th(month, year)
    case Err(e) => Err(e)
    case Ok(due) => Ok(Compose(FieldsOf("10", CodImp(tipDecont).value, month, year, due, 0)))
  }

  /** D100 and D710. */
  function ObligationEvidenceNumber(code: string, month: int, year: int, due: Date): Result<string, Error>
    requires IsDate(due)
  {
    if !IsCode(code) then Err(BadCode)
    else if CheckPeriod(month, year).Some? then Err(CheckPeriod(month, year).value)
    else Ok(Compose(FieldsOf("10", code, month, year, due, 0)))
  }

  /** D101. */
  function ProfitTaxEvidenceNumber(code: string, month: int, year: int, due: Date, inLiquidation: bool): Result<string, Error>
    requires IsDate(due)
  {
    if !IsCode(code) then Err(BadCode)
    else if CheckPeriod(month, year).Some? then Err(CheckPeriod(month, year).value)
    else Ok(Compose(FieldsOf("11", code, month, year, due, if inLiquidation then 1 else 0)))
  }

  /** D301. */
  function SpecialVatEvidenceNumber(month: int, year: int, newTransport: bool): Result<string, Error> {
    if CheckPeriod(month, year).Some? then Err(CheckPeriod(month, year).value)
    else match DueOn25th(month, year)
    case Err(e) => Err(e)
    case Ok(due) => Ok(Compose(FieldsOf("10", "301", month, year, due, if newTransport then 1 else 0)))
  }

  // ---- The checksum ------------------------------------------------------------------------

  lemma {:induction false} DigitSumConcat(a: string, b: string)
    requires AllDigits(a) && AllDigits(b)
    ensures AllDigits(a + b) && DigitSum(a + b) == DigitSum(a) + DigitSum(b)
    decreases |b|
  {
    if b == [] {
      assert a + b == a;
    } else {
      assert (a + b)[..|a + b| - 1] == a + b[..|b| - 1];
      DigitSumConcat(a, b[..|b| - 1]);
    }
  }

  lemma PadSum(n: nat, top: nat)
    requires n <= top < 100
    ensures AllDigits(Pad2(n)) && DigitSum(Pad2(n)) == n / 10 + n % 10
    ensures n / 10 + n % 10 <= 18
    ensures top <= 12 ==> n / 10 + n % 10 <= 9
    ensures top <= 31 ==> n / 10 + n % 10 <= 11
  {
  }

  /** The digit sum of a body is at most 96, so the modulo never wraps. */
  lemma BodySumBounded(f: Fields)
    requires Encodable(f)
    ensures AllDigits(Body(f)) && DigitSum(Body(f)) <= 96
  {
    var period, due := Period(f), DueDate(f);
    PadSum(f.month, 12);
    PadSum(f.year2, 99);
    PadSum(f.dueDay, 31);
    PadSum(f.dueMonth, 12);
    PadSum(f.dueYear2, 99);
    DigitSumConcat(Pad2(f.month), Pad2(f.year2));
    DigitSumConcat(Pad2(f.dueDay), Pad2(f.dueMonth));
    DigitSumConcat(Pad2(f.dueDay) + Pad2(f.dueMonth), Pad2(f.dueYear2));
    ShortSums(f);
    DigitSumConcat(f.prefix, f.code);
    DigitSumConcat(f.prefix + f.code, "01");
    DigitSumConcat(f.prefix + f.code + "01", period);
    DigitSumConcat(f.prefix + f.code + "01" + period, due);
    DigitSumConcat(f.prefix + f.code + "01" + period + due, [DigitChar(f.flag)]);
    DigitSumConcat(f.prefix + f.code + "01" + period + due + [DigitChar(f.flag)], "000");
  }

  lemma ShortSums(f: Fields)
    requires Encodable(f)
    ensures AllDigits(f.prefix) && DigitSum(f.prefix) <= 2 && DigitSum(f.code) <= 27
    ensures AllDigits("01") && DigitSum("01") == 1 && AllDigits("000") && DigitSum("000") == 0
    ensures AllDigits([DigitChar(f.flag)]) && DigitSum([DigitChar(f.flag)]) == f.flag
  {
    assert f.code[..2][..1][..0] == [] && f.code[..2][..1][0] == f.code[0] && f.code[..2][1] == f.code[1];
    assert DigitSum(f.code[..2][..1]) == DigitValue(f.code[0]);
    assert DigitSum(f.code[..2]) == DigitValue(f.code[0]) + DigitValue(f.code[1]);
    assert f.prefix[..1][..0] == [];
    assert DigitSum(f.prefix[..1]) == 1;
    assert "01"[..1] == "0" && "0"[..0] == "";
    assert DigitSum("0") == 0;
    assert "000"[..2] == "00" && "00"[..1] == "0";
    assert DigitSum("00") == 0;
  }

  /** What the validators check: 23 digits, the last two being the sum of the rest. */
  predicate IsValid(s: string) {
    |s| == 23 && AllDigits(s) && s[21..] == Pad2(DigitSum(s[..21]) % 100)
  }

  /** Every composed number is valid, and its check is the plain digit sum. */
  lemma ComposedIsValid(f: Fields)
    requires Encodable(f)
    ensures IsValid(Compose(f)) && Compose(f)[5..7] == "01" && Compose(f)[18..21] == "000"
    ensures AllDigits(Body(f)) && DigitSum(Body(f)) < 100 && Compose(f)[21..] == Pad2(DigitSum(Body(f)))
  {
    BodyShape(f);
    BodySumBounded(f);
    var body := Body(f);
    assert DigitSum(body) % 100 == DigitSum(body);
    CheckedBody(body, Pad2(DigitSum(body)));
  }

  lemma CheckedBody(body: string, check: string)
    requires |body| == 21 && AllDigits(body) && |check| == 2 && AllDigits(check)
    ensures IsValid(body + check) <==> check == Pad2(DigitSum(body) % 100)
    ensures (body + check)[21..] == check
  {
  }

  lemma {:induction false} SumAfterChange(s: string, i: nat, c: char)
    requires AllDigits(s) && i < |s| && IsDigit(c)
    ensures AllDigits(s[i := c]) && DigitSum(s[i := c]) == DigitSum(s) - DigitValue(s[i]) + DigitValue(c)
    decreases |s|
  {
    var t := s[i := c];
    if i < |s| - 1 {
      SumAfterChange(s[..|s| - 1], i, c);
      assert t[..|s| - 1] == s[..|s| - 1][i := c];
    } else {
      assert t[..|s| - 1] == s[..|s| - 1];
    }
  }

  /** Any single-digit change of a valid number makes it invalid. */
  lemma SingleDigitChangeDetected(s: string, i: nat, c: char)
    requires IsValid(s) && i < 23 && IsDigit(c) && c != s[i]
    ensures !IsValid(s[i := c])
  {
    var t := s[i := c];
    if i < 21 {
      SumAfterChange(s[..21], i, c);
      assert t[..21] == s[..21][i := c] && t[21..] == s[21..];
      var a, b := DigitSum(s[..21]), DigitSum(t[..21]);
      assert a != b && -10 < a - b < 10;
      assert a % 100 != b % 100;
      Pad2Injective(a % 100, b % 100);
    } else {
      assert t[..21] == s[..21];
      assert t[21..][i - 21] != s[21..][i - 21];
    }
  }

  // ---- Decoding ------------------------------------------------------------------------------

  function Decode(s: string): Fields
    requires |s| == 23 && AllDigits(s)
  {
    Fields(s[0..2], s[2..5], Value(s[7..9]), Value(s[9..11]), Value(s[11..13]), Value(s[13..15]), Value(s[15..17]), DigitValue(s[17]))
  }

  /** Decoding recovers every field, years up to their century. */
  lemma DecodeCompose(f: Fields)
    requires Encodable(f)
    ensures |Compose(f)| == 23 && AllDigits(Compose(f)) && Decode(Compose(f)) == f
  {
    ComposedIsValid(f);
    var s := Compose(f);
    assert s[0..2] == f.prefix && s[2..5] == f.code;
    assert s[7..9] == Pad2(f.month) && s[9..11] == Pad2(f.year2);
    assert s[11..13] == Pad2(f.dueDay) && s[13..15] == Pad2(f.dueMonth) && s[15..17] == Pad2(f.dueYear2);
    assert s[17] == DigitChar(f.flag);
    ValueOfPad2(f.month);
    ValueOfPad2(f.year2);
    ValueOfPad2(f.dueDay);
    ValueOfPad2(f.dueMonth);
    ValueOfPad2(f.dueYear2);
  }

  /** Equal numbers come from equal fields, whichever composers made them. */
  lemma ComposeInjective(f: Fields, g: Fields)
    requires Encodable(f) && Encodable(g)
    ensures Compose(f) == Compose(g) <==> f == g
  {
    DecodeCompose(f);
    DecodeCompose(g);
  }

  // ---- The composers ----------------------------------------------------------------------------

  /** D300 answers exactly for a known settlement, a real month, a four-digit year and a
      due date the calendar still has: December 9999 raises. */
  lemma PaymentAnswersExactly(tipDecont: string, month: int, year: int)
    ensures PaymentEvidenceNumber(tipDecont, month, year).Ok? <==>
            tipDecont in {"L", "T", "S", "A"} && 1 <= month <= 12 && 1000 <= year <= 9999 && !(month == 12 && year == 9999)
    ensures PaymentEvidenceNumber(tipDecont, month, year).Ok? ==>
              var s := PaymentEvidenceNumber(tipDecont, month, year).value;
              && IsValid(s) && Decode(s).code == CodImp(tipDecont).value
              && Decode(s) == Fields("10", CodImp(tipDecont).value, month, year % 100, 25, month % 12 + 1,
                                     (if month == 12 then year + 1 else year) % 100, 0)
  {
    if CodImp(tipDecont).Some? && CheckPeriod(month, year).None? && DueOn25th(month, year).Ok? {
      SettlementCodes(tipDecont);
      DecontFields(CodImp(tipDecont).value, month, year, 0);
    }
  }

  /** D301, likewise; its flag is the one asked for. */
  lemma SpecialVatAnswersExactly(month: int, year: int, newTransport: bool)
    ensures SpecialVatEvidenceNumber(month, year, newTransport).Ok? <==>
            1 <= month <= 12 && 1000 <= year <= 9999 && !(month == 12 && year == 9999)
    ensures SpecialVatEvidenceNumber(month, year, newTransport).Ok? ==>
              var s := SpecialVatEvidenceNumber(month, year, newTransport).value;
              IsValid(s) && Decode(s) == Fields("10", "301", month, year % 100, 25, month % 12 + 1,
                                                (if month == 12 then year + 1 else year) % 100, if newTransport then 1 else 0)
  {
    if CheckPeriod(month, year).None? && DueOn25th(month, year).Ok? {
      DecontFields("301", month, year, if newTransport then 1 else 0);
    }
  }

  /** The four settlements and their codes; no other is known. */
  lemma SettlementsExactly(tipDecont: string)
    ensures var codes := map["L" := "301", "T" := "302", "S" := "303", "A" := "304"];
            CodImp(tipDecont) == if tipDecont in codes then Some(codes[tipDecont]) else None
  {
  }

  /** Every refusal, in the order of the checks. */
  lemma RefusedExactly(tipDecont: string, code: string, month: int, year: int, due: Date, flag: bool)
    requires 1 <= due.day <= 31 && 1 <= due.month <= 12 && 1 <= due.year <= 9999
    ensures var p, o := PaymentEvidenceNumber(tipDecont, month, year), ObligationEvidenceNumber(code, month, year, due);
            && (p == Err(UnknownSettlement) <==> tipDecont !in {"L", "T", "S", "A"})
            && (o == Err(BadCode) <==> !(|code| == 3 && AllDigits(code)))
            && (o == Err(BadMonth) <==> |code| == 3 && AllDigits(code) && (month < 1 || month > 12))
            && (o.Err? ==> ProfitTaxEvidenceNumber(code, month, year, due, flag) == o && o.error in {BadCode, BadMonth, BadYear})
            && (tipDecont == "L" ==> (p == Err(BadMonth) <==> month < 1 || month > 12))
            && (tipDecont == "L" ==> (p == Err(BadYear) <==> 1 <= month <= 12 && (year < 1000 || year > 9999)))
            && (tipDecont == "L" ==> (p == Err(DateOutOfRange) <==> month == 12 && year == 9999))
  {
  }

  lemma DecontFields(code: string, month: int, year: int, flag: nat)
    requires IsCode(code) && CheckPeriod(month, year).None? && DueOn25th(month, year).Ok? && flag <= 1
    ensures var f := FieldsOf("10", code, month, year, DueOn25th(month, year).value, flag);
            && Encodable(f) && IsValid(Compose(f))
            && Decode(Compose(f)) == Fields("10", code, month, year % 100, 25, month % 12 + 1,
                                            (if month == 12 then year + 1 else year) % 100, flag)
  {
    var f := FieldsOf("10", code, month, year, DueOn25th(month, year).value, flag);
    assert f == Fields("10", code, month, year % 100, 25, month % 12 + 1, (if month == 12 then year + 1 else year) % 100, flag);
    ComposedDecodes(f);
  }

  lemma SettlementCodes(tipDecont: string)
    ensures CodImp(tipDecont).Some? ==> IsCode(CodImp(tipDecont).value)
  {
  }

  lemma ComposedDecodes(f: Fields)
    requires Encodable(f)
    ensures IsValid(Compose(f)) && Decode(Compose(f)) == f
  {
    ComposedIsValid(f);
    DecodeCompose(f);
  }

  /** The monthly D300 number is the D301 number without new means of transport, for
      every period; with the flag they always differ. */
  lemma MonthlyVatEqualsSpecialVat(month: int, year: int)
    ensures PaymentEvidenceNumber("L", month, year) == SpecialVatEvidenceNumber(month, year, false)
    ensures PaymentEvidenceNumber("L", month, year).Ok? ==>
              PaymentEvidenceNumber("L", month, year) != SpecialVatEvidenceNumber(month, year, true)
  {
    if CheckPeriod(month, year).None? && DueOn25th(month, year).Ok? {
      var due := DueOn25th(month, year).value;
      ComposeInjective(FieldsOf("10", "301", month, year, due, 0), FieldsOf("10", "301", month, year, due, 1));
    }
  }

  /** A profit-tax number never equals another form's, and both form families decode to
      exactly what was asked. */
  lemma ObligationAndProfitTaxDecode(code: string, month: int, year: int, due: Date, flag: bool)
    requires 1 <= due.day <= 31 && 1 <= due.month <= 12 && 1 <= due.year <= 9999
    ensures var o, p := ObligationEvidenceNumber(code, month, year, due), ProfitTaxEvidenceNumber(code, month, year, due, flag);
            && (o.Ok? <==> p.Ok? && IsCode(code) && 1 <= month <= 12 && 1000 <= year <= 9999)
            && (o.Ok? ==> o != p && IsValid(o.value) && IsValid(p.value)
                          && Decode(o.value) == FieldsOf("10", code, month, year, due, 0)
                          && Decode(p.value) == FieldsOf("11", code, month, year, due, if flag then 1 else 0))
  {
    if IsCode(code) && CheckPeriod(month, year).None? {
      var f, g := FieldsOf("10", code, month, year, due, 0), FieldsOf("11", code, month, year, due, if flag then 1 else 0);
      ComposedIsValid(f);
      ComposedIsValid(g);
      DecodeCompose(f);
      DecodeCompose(g);
    }
  }
}
