/** The builder and the reader of e-Transport documents (src/anafpy/etransport/models.py)
    undo each other. */
module ETransportTranslation {
  import opened Numerals
  import opened ETransportModels
  import opened Wrappers

  datatype BuildError = MissingDeclarant | DeclarantMismatch
  datatype ReadError = NoOperation | NotRepresentable

  // ---- Build: flat to wire ---------------------------------------------------------------

  function BuildDate(d: Day): XmlDate {
    XmlDate(d, None)
  }

  function BuildGood(g: Good): Bunuri
    requires ValidGood(g)
  {
    Bunuri(g.scope, g.tariffCode, g.name, Num(g.quantity), g.unitCode,
           if g.netWeight.Some? then Some(Num(g.netWeight.value)) else None,
           Num(g.grossWeight),
           if g.valueRon.Some? then Some(Num(g.valueRon.value)) else None,
           g.lineRef)
  }

  function BuildPartner(p: Partner): Partener {
    Partener(p.country, p.code, p.name)
  }

  function BuildVehicle(v: Vehicle): DateTransport {
    DateTransport(v.plate, v.trailer1, v.trailer2, v.carrierCountry, v.carrierCode, v.carrierName, BuildDate(v.transportDate))
  }

  function BuildAddress(a: Address): Locatie {
    Locatie(a.county, a.locality, a.street, a.number, a.block, a.entrance, a.floor, a.apartment, a.postalCode, a.other)
  }

  function BuildRoutePoint(l: Location): LocTraseu {
    LocTraseu(if l.address.Some? then Some(BuildAddress(l.address.value)) else None, l.borderPoint, l.customsOffice)
  }

  function BuildDocument(d: Document): DocumentTransport {
    DocumentTransport(d.docType, d.number, BuildDate(d.date), d.note)
  }

  function BuildPrior(p: PriorNotification): NotificareAnterioara {
    NotificareAnterioara(p.uit, p.note, p.declarantRef)
  }

  function BuildNotificare(o: Operation): Notificare
    requires o.Transport? && ValidOperation(o)
  {
    Notificare(o.operationType, o.correctionOf,
               seq(|o.goods|, i requires 0 <= i < |o.goods| => BuildGood(o.goods[i])),
               BuildPartner(o.partner), BuildVehicle(o.vehicle), BuildRoutePoint(o.start), BuildRoutePoint(o.end),
               seq(|o.documents|, i requires 0 <= i < |o.documents| => BuildDocument(o.documents[i])),
               seq(|o.prior|, i requires 0 <= i < |o.prior| => BuildPrior(o.prior[i])))
  }

  /** `document.declarant_code or declarant_code`. */
  function DeclarantCode(own: Option<string>, argument: Option<string>): Option<string> {
    if own.Some? && own.value != "" then own else argument
  }

  /** `build_etransport`; `now` is Romania's wall clock. */
  function Build(f: Flat, argument: Option<string>, now: Moment): Result<ETransport, BuildError>
    requires ValidFlat(f)
  {
    var code := DeclarantCode(f.root.declarantCode, argument);
    if code.None? then Err(MissingDeclarant)
    else if f.root.declarantCode.Some? && argument.Some? && f.root.declarantCode != argument then Err(DeclarantMismatch)
    else
      var root := ETransport(code.value, f.root.declarantRef, f.root.postIncident, None, None, None, None);
      match f.operation
      case Transport(_, _, _, _, _, _, _, _, _) => Ok(root.(notificare := Some(BuildNotificare(f.operation))))
      case Deletion(uit) => Ok(root.(stergere := Some(uit)))
      case Confirmation(uit, kind, note) => Ok(root.(confirmare := Some(Confirmare(uit, kind, note))))
      case VehicleChange(uit, plate, trailer1, trailer2, changedAt, note) =>
        var at := if changedAt.Some? then changedAt.value else now;
        Ok(root.(modifVehicul := Some(ModifVehicul(uit, plate, trailer1, trailer2, XmlDateTime(at.second, 0, at.offset), note))))
  }

  /** `build_etransport` as the source runs it: the root is created, then one field of it
      is assigned. */
  method BuildETransport(f: Flat, argument: Option<string>, now: Moment) returns (result: Result<ETransport, BuildError>)
    requires ValidFlat(f)
    ensures result == Build(f, argument, now)
  {
    var code := DeclarantCode(f.root.declarantCode, argument);
    if code.None? {
      return Err(MissingDeclarant);
    }
    if f.root.declarantCode.Some? && argument.Some? && f.root.declarantCode.value != argument.value {
      return Err(DeclarantMismatch);
    }
    var root := ETransport(code.value, f.root.declarantRef, f.root.postIncident, None, None, None, None);
    match f.operation {
      case Transport(_, _, _, _, _, _, _, _, _) =>
        root := root.(notificare := Some(BuildNotificare(f.operation)));
      case Deletion(uit) =>
        root := root.(stergere := Some(uit));
      case Confirmation(uit, kind, note) =>
        root := root.(confirmare := Some(Confirmare(uit, kind, note)));
      case VehicleChange(uit, plate, trailer1, trailer2, changedAt, note) =>
        var at := if changedAt.Some? then changedAt.value else now;
        root := root.(modifVehicul :=
          Some(ModifVehicul(uit, plate, trailer1, trailer2, XmlDateTime(at.second, 0, at.offset), note)));
    }
    return Ok(root);
  }

  // ---- Read: wire to flat ------------------------------------------------------------------

  function CleanIfAny(s: Option<string>): Option<string> {
    if s.Some? then Some(CleanCode(s.value)) else None
  }

  /** An optional numeral; an absent or empty one is none. */
  predicate AmountReadable(s: Option<string>) {
    s.Some? && s.value != "" ==> ParseAmount(s.value).Some?
  }

  function ReadAmount(s: Option<string>): Option<int>
    requires AmountReadable(s)
  {
    if s.Some? && s.value != "" then Some(ParseAmount(s.value).value) else None
  }

  predicate GoodReadable(b: Bunuri) {
    && ParseAmount(b.cantitate).Some? && ParseAmount(b.greutateBruta).Some?
    && AmountReadable(b.greutateNeta) && AmountReadable(b.valoare)
  }

  function ReadGood(b: Bunuri): Good
    requires GoodReadable(b)
  {
    Good(b.codScop, b.denumire, ParseAmount(b.cantitate).value, b.codUnitate, ParseAmount(b.greutateBruta).value,
         ReadAmount(b.greutateNeta), b.codTarifar, ReadAmount(b.valoare), b.refDeclarant)
  }

  function ReadPartner(p: Partener): Partner {
    Partner(p.denumire, p.codTara, p.cod)
  }

  function ReadVehicle(d: DateTransport): Vehicle {
    Vehicle(CleanCode(d.nrVehicul), CleanIfAny(d.nrRemorca1), CleanIfAny(d.nrRemorca2),
            d.denumireOrg, d.codTaraOrg, d.codOrg, d.dataTransport.day)
  }

  function ReadAddress(l: Locatie): Address {
    Address(l.codJudet, l.localitate, l.strada, l.numar, l.bloc, l.scara, l.etaj, l.apartament, l.codPostal, l.alteInfo)
  }

  function ReadRoutePoint(l: LocTraseu): Location {
    Location(l.codPtf, l.codBirouVamal, if l.locatie.Some? then Some(ReadAddress(l.locatie.value)) else None)
  }

  function ReadDocument(d: DocumentTransport): Document {
    Document(d.tip, d.data.day, d.numar, d.observatii)
  }

  function ReadPrior(p: NotificareAnterioara): PriorNotification {
    PriorNotification(CleanCode(p.uit), p.observatii, p.refDeclarant)
  }

  predicate NotificareReadable(n: Notificare) {
    forall i | 0 <= i < |n.bunuri| :: GoodReadable(n.bunuri[i])
  }

  function ReadDeclaration(n: Notificare): Operation
    requires NotificareReadable(n)
  {
    Transport(n.codTipOperatiune, CleanIfAny(n.corectie), ReadPartner(n.partener), ReadVehicle(n.dateTransport),
              ReadRoutePoint(n.locStart), ReadRoutePoint(n.locFinal),
              seq(|n.bunuri|, i requires 0 <= i < |n.bunuri| => ReadGood(n.bunuri[i])),
              seq(|n.documente|, i requires 0 <= i < |n.documente| => ReadDocument(n.documente[i])),
              seq(|n.anterioare|, i requires 0 <= i < |n.anterioare| => ReadPrior(n.anterioare[i])))
  }

  function ReadOperation(doc: ETransport): Result<Operation, ReadError> {
    if doc.notificare.Some? then
      if NotificareReadable(doc.notificare.value) then Ok(ReadDeclaration(doc.notificare.value)) else Err(NotRepresentable)
    else if doc.stergere.Some? then Ok(Deletion(CleanCode(doc.stergere.value)))
    else if doc.confirmare.Some? then
      var c := doc.confirmare.value;
      Ok(Confirmation(CleanCode(c.uit), c.tip, c.observatii))
    else if doc.modifVehicul.Some? then
      var m := doc.modifVehicul.value;
      Ok(VehicleChange(CleanCode(m.uit), CleanCode(m.nrVehicul), CleanIfAny(m.nrRemorca1), CleanIfAny(m.nrRemorca2),
                       Some(Moment(m.dataModificare.second, m.dataModificare.nanos / 1000, m.dataModificare.offset)), m.observatii))
    else Err(NoOperation)
  }

  function ReadRoot(doc: ETransport): Root {
    Root(Some(doc.codDeclarant), doc.refDeclarant, doc.declPostAvarie)
  }

  /** `read_flat_transport`: translate, then hold the result to the flat models' rules. */
  function Read(doc: ETransport): Result<Flat, ReadError> {
    match ReadOperation(doc)
    case Err(e) => Err(e)
    case Ok(o) =>
      var f := Flat(ReadRoot(doc), o);
      if ValidFlat(f) then Ok(f) else Err(NotRepresentable)
  }

  /** Which document holds no operation, and how else reading one fails. */
  lemma ReadFails(doc: ETransport)
    ensures Read(doc) == Err(NoOperation) <==>
            doc.notificare.None? && doc.stergere.None? && doc.confirmare.None? && doc.modifVehicul.None?
    ensures Read(doc).Ok? ==> ValidFlat(Read(doc).value)
  {
  }

  /** The instant of a vehicle change is read to the microsecond, in its own zone. */
  lemma InstantExactly(doc: ETransport)
    requires Read(doc).Ok? && Read(doc).value.operation.VehicleChange?
    ensures doc.modifVehicul.Some? && Read(doc).value.operation.changedAt.Some?
    ensures var wire, read := doc.modifVehicul.value.dataModificare, Read(doc).value.operation.changedAt.value;
            read.second == wire.second && read.offset == wire.offset && 0 <= wire.nanos - 1000 * read.micros < 1000
  {
  }

  // ---- Read after build ------------------------------------------------------------------------

  /** What a build fills in: the declarant's code, and a vehicle change's instant to the
      second. */
  function Filled(f: Flat, code: string, now: Moment): Flat {
    Flat(f.root.(declarantCode := Some(code)),
         if f.operation.VehicleChange? then
           var at := if f.operation.changedAt.Some? then f.operation.changedAt.value else now;
           f.operation.(changedAt := Some(at.(micros := 0)))
         else f.operation)
  }

  lemma PlateIsClean(s: string)
    requires IsPlate(s)
    ensures CleanCode(s) == s
  {
    CleanCodeKeepsClean(s);
  }

  lemma PlateIfAnyIsClean(s: Option<string>)
    requires PlateIfAny(s)
    ensures CleanIfAny(s) == s
  {
    if s.Some? {
      PlateIsClean(s.value);
    }
  }

  lemma ReadBuildGood(g: Good)
    requires ValidGood(g)
    ensures GoodReadable(BuildGood(g)) && ReadGood(BuildGood(g)) == g
  {
    ParseNum(g.quantity);
    ParseNum(g.grossWeight);
    if g.netWeight.Some? {
      ParseNum(g.netWeight.value);
    }
    if g.valueRon.Some? {
      ParseNum(g.valueRon.value);
    }
  }

  lemma ReadBuildVehicle(v: Vehicle)
    requires ValidVehicle(v)
    ensures ReadVehicle(BuildVehicle(v)) == v
  {
    PlateIsClean(v.plate);
    PlateIfAnyIsClean(v.trailer1);
    PlateIfAnyIsClean(v.trailer2);
  }

  lemma ReadBuildRoutePoint(l: Location)
    ensures ReadRoutePoint(BuildRoutePoint(l)) == l
  {
  }

  lemma ReadBuildPrior(p: PriorNotification)
    requires ValidPrior(p)
    ensures ReadPrior(BuildPrior(p)) == p
  {
    UitIsClean(p.uit);
  }

  lemma ReadBuildDeclaration(o: Operation)
    requires o.Transport? && ValidOperation(o)
    ensures NotificareReadable(BuildNotificare(o)) && ReadDeclaration(BuildNotificare(o)) == o
  {
    var n := BuildNotificare(o);
    forall i | 0 <= i < |o.goods| ensures GoodReadable(n.bunuri[i]) && ReadGood(n.bunuri[i]) == o.goods[i] {
      ReadBuildGood(o.goods[i]);
    }
    forall i | 0 <= i < |o.prior| ensures ReadPrior(n.anterioare[i]) == o.prior[i] {
      ReadBuildPrior(o.prior[i]);
    }
    if o.correctionOf.Some? {
      UitIsClean(o.correctionOf.value);
    }
    ReadBuildVehicle(o.vehicle);
    ReadBuildRoutePoint(o.start);
    ReadBuildRoutePoint(o.end);
    var r := ReadDeclaration(n);
    assert r.goods == o.goods;
    assert r.documents == o.documents;
    assert r.prior == o.prior;
  }

  lemma ReadBuildOperation(f: Flat, argument: Option<string>, now: Moment)
    requires ValidFlat(f) && Build(f, argument, now).Ok?
    ensures ReadOperation(Build(f, argument, now).value) == Ok(Filled(f, "", now).operation)
  {
    match f.operation
    case Transport(_, _, _, _, _, _, _, _, _) => ReadBuildDeclaration(f.operation);
    case Deletion(uit) => UitIsClean(uit);
    case Confirmation(uit, _, _) => UitIsClean(uit);
    case VehicleChange(uit, plate, trailer1, trailer2, _, _) =>
      UitIsClean(uit);
      PlateIsClean(plate);
      PlateIfAnyIsClean(trailer1);
      PlateIfAnyIsClean(trailer2);
  }

  /** When a build goes through: a code from one place, or the same one from both. */
  lemma BuildSucceedsExactly(f: Flat, argument: Option<string>, now: Moment)
    requires ValidFlat(f)
    ensures Build(f, argument, now).Ok? <==>
            if f.root.declarantCode.Some? then argument.None? || argument == f.root.declarantCode else argument.Some?
    ensures Build(f, argument, now).Ok? ==>
              Some(Build(f, argument, now).value.codDeclarant) == if f.root.declarantCode.Some? then f.root.declarantCode else argument
  {
    if f.root.declarantCode.Some? {
      assert f.root.declarantCode.value != "";
    }
  }

  /** Reading a built document gives back the flat document, for all four kinds and any
      list lengths, up to the filled code and the truncated or defaulted instant. A code
      argument that is no declarant code is the one thing the reader then refuses. */
  lemma ReadAfterBuild(f: Flat, argument: Option<string>, now: Moment)
    requires ValidFlat(f) && Build(f, argument, now).Ok?
    ensures var wire := Build(f, argument, now).value;
            Read(wire) == if IsDeclarantCode(wire.codDeclarant) then Ok(Filled(f, wire.codDeclarant, now)) else Err(NotRepresentable)
  {
    ReadBuildOperation(f, argument, now);
    var wire := Build(f, argument, now).value;
    assert ValidOperation(Filled(f, "", now).operation);
    assert ReadRoot(wire) == Filled(f, wire.codDeclarant, now).root;
  }

  // ---- Build after read --------------------------------------------------------------------------

  /** The canonical spelling of a wire document: numerals at two decimals, codes without
      separators, dates without an offset, instants to the second, one operation. */
  function CanonAmount(s: Option<string>): Option<string> {
    if s.Some? && s.value != "" then Some(CanonNumeral(s.value)) else None
  }

  function CanonGood(b: Bunuri): Bunuri {
    b.(cantitate := CanonNumeral(b.cantitate), greutateBruta := CanonNumeral(b.greutateBruta),
       greutateNeta := CanonAmount(b.greutateNeta), valoare := CanonAmount(b.valoare))
  }

  function CanonVehicle(d: DateTransport): DateTransport {
    d.(nrVehicul := CleanCode(d.nrVehicul), nrRemorca1 := CleanIfAny(d.nrRemorca1), nrRemorca2 := CleanIfAny(d.nrRemorca2),
       dataTransport := d.dataTransport.(offset := None))
  }

  function CanonDocument(d: DocumentTransport): DocumentTransport {
    d.(data := d.data.(offset := None))
  }

  function CanonPrior(p: NotificareAnterioara): NotificareAnterioara {
    p.(uit := CleanCode(p.uit))
  }

  function CanonNotificare(n: Notificare): Notificare {
    n.(corectie := CleanIfAny(n.corectie), dateTransport := CanonVehicle(n.dateTransport),
       bunuri := seq(|n.bunuri|, i requires 0 <= i < |n.bunuri| => CanonGood(n.bunuri[i])),
       documente := seq(|n.documente|, i requires 0 <= i < |n.documente| => CanonDocument(n.documente[i])),
       anterioare := seq(|n.anterioare|, i requires 0 <= i < |n.anterioare| => CanonPrior(n.anterioare[i])))
  }

  function Canon(doc: ETransport): ETransport {
    if doc.notificare.Some? then
      doc.(notificare := Some(CanonNotificare(doc.notificare.value)), stergere := None, confirmare := None, modifVehicul := None)
    else if doc.stergere.Some? then
      doc.(stergere := Some(CleanCode(doc.stergere.value)), confirmare := None, modifVehicul := None)
    else if doc.confirmare.Some? then
      doc.(confirmare := Some(doc.confirmare.value.(uit := CleanCode(doc.confirmare.value.uit))), modifVehicul := None)
    else if doc.modifVehicul.Some? then
      var m := doc.modifVehicul.value;
      doc.(modifVehicul := Some(m.(uit := CleanCode(m.uit), nrVehicul := CleanCode(m.nrVehicul),
                                   nrRemorca1 := CleanIfAny(m.nrRemorca1), nrRemorca2 := CleanIfAny(m.nrRemorca2),
                                   dataModificare := m.dataModificare.(nanos := 0))))
    else doc
  }

  lemma BuildReadGood(b: Bunuri)
    requires GoodReadable(b) && ValidGood(ReadGood(b))
    ensures BuildGood(ReadGood(b)) == CanonGood(b)
  {
  }

  lemma BuildReadDeclaration(n: Notificare)
    requires NotificareReadable(n) && ValidOperation(ReadDeclaration(n))
    ensures BuildNotificare(ReadDeclaration(n)) == CanonNotificare(n)
  {
    var o := ReadDeclaration(n);
    var b, c := BuildNotificare(o), CanonNotificare(n);
    forall i | 0 <= i < |n.bunuri| ensures b.bunuri[i] == c.bunuri[i] {
      assert ValidGood(o.goods[i]);
      BuildReadGood(n.bunuri[i]);
    }
    assert b.bunuri == c.bunuri;
    assert b.documente == c.documente;
    assert b.anterioare == c.anterioare;
  }

  /** Rebuilding a document that was read changes nothing but spelling. */
  lemma BuildAfterRead(doc: ETransport, now: Moment)
    requires Read(doc).Ok?
    ensures Build(Read(doc).value, None, now) == Ok(Canon(doc))
  {
    if doc.notificare.Some? {
      BuildReadDeclaration(doc.notificare.value);
    }
  }

  /** An optional numeral is kept as a number; an empty one is dropped. */
  ghost predicate SameAmount(s: Option<string>, t: Option<string>) {
    if s.Some? && s.value != "" then t.Some? && SameNumber(s.value, t.value) else t.None?
  }

  /** Every number of a rebuilt declaration is the number that was read. */
  lemma RebuildKeepsNumbers(doc: ETransport, now: Moment, k: nat)
    requires Read(doc).Ok? && doc.notificare.Some? && k < |doc.notificare.value.bunuri|
    ensures var rebuilt := Build(Read(doc).value, None, now);
            && rebuilt.Ok? && rebuilt.value.notificare.Some? && |rebuilt.value.notificare.value.bunuri| == |doc.notificare.value.bunuri|
            && var b, c := doc.notificare.value.bunuri[k], rebuilt.value.notificare.value.bunuri[k];
               && SameNumber(b.cantitate, c.cantitate) && SameNumber(b.greutateBruta, c.greutateBruta)
               && SameAmount(b.greutateNeta, c.greutateNeta) && SameAmount(b.valoare, c.valoare)
  {
    BuildAfterRead(doc, now);
    var b := doc.notificare.value.bunuri[k];
    assert GoodReadable(b);
    CanonNumeralKeepsValue(b.cantitate);
    CanonNumeralKeepsValue(b.greutateBruta);
    CanonAmountKeepsNumber(b.greutateNeta);
    CanonAmountKeepsNumber(b.valoare);
  }

  lemma CanonAmountKeepsNumber(s: Option<string>)
    requires AmountReadable(s)
    ensures SameAmount(s, CanonAmount(s))
  {
    if s.Some? && s.value != "" {
      CanonNumeralKeepsValue(s.value);
    }
  }

  /** What is read of a goods line: the numbers its numerals denote, in hundredths. */
  lemma ReadGoodExactly(b: Bunuri, i: string, f: string)
    requires GoodReadable(b)
    ensures Numeral(b.cantitate, i, f) ==> ReadGood(b).quantity * Pow10(|f|) == 100 * Value(i + f)
    ensures Numeral(b.greutateBruta, i, f) ==> ReadGood(b).grossWeight * Pow10(|f|) == 100 * Value(i + f)
    ensures b.greutateNeta.Some? && Numeral(b.greutateNeta.value, i, f) ==>
              ReadGood(b).netWeight.Some? && ReadGood(b).netWeight.value * Pow10(|f|) == 100 * Value(i + f)
    ensures b.valoare.Some? && Numeral(b.valoare.value, i, f) ==>
              ReadGood(b).valueRon.Some? && ReadGood(b).valueRon.value * Pow10(|f|) == 100 * Value(i + f)
  {
    if AllDigits(i) && AllDigits(f) {
      ValueConcat(i, f);
    }
    if Numeral(b.cantitate, i, f) {
      ParsedExactly(b.cantitate, i, f);
    }
    if Numeral(b.greutateBruta, i, f) {
      ParsedExactly(b.greutateBruta, i, f);
    }
    if b.greutateNeta.Some? && Numeral(b.greutateNeta.value, i, f) {
      ParsedExactly(b.greutateNeta.value, i, f);
    }
    if b.valoare.Some? && Numeral(b.valoare.value, i, f) {
      ParsedExactly(b.valoare.value, i, f);
    }
  }

  lemma CanonGoodIdempotent(b: Bunuri)
    ensures CanonGood(CanonGood(b)) == CanonGood(b)
  {
    CanonNumeralKeepsValue(b.cantitate);
    CanonNumeralKeepsValue(b.greutateBruta);
    CanonAmountIdempotent(b.greutateNeta);
    CanonAmountIdempotent(b.valoare);
  }

  lemma CanonAmountIdempotent(s: Option<string>)
    ensures CanonAmount(CanonAmount(s)) == CanonAmount(s)
  {
    if s.Some? && s.value != "" {
      CanonNumeralKeepsValue(s.value);
    }
  }

  lemma CleanIfAnyIdempotent(s: Option<string>)
    ensures CleanIfAny(CleanIfAny(s)) == CleanIfAny(s)
  {
    if s.Some? {
      CleanCodeIdempotent(s.value);
    }
  }

  lemma CanonNotificareIdempotent(n: Notificare)
    ensures CanonNotificare(CanonNotificare(n)) == CanonNotificare(n)
  {
    var c := CanonNotificare(n);
    var cc := CanonNotificare(c);
    CleanIfAnyIdempotent(n.corectie);
    CleanCodeIdempotent(n.dateTransport.nrVehicul);
    CleanIfAnyIdempotent(n.dateTransport.nrRemorca1);
    CleanIfAnyIdempotent(n.dateTransport.nrRemorca2);
    forall i | 0 <= i < |n.bunuri| ensures cc.bunuri[i] == c.bunuri[i] {
      CanonGoodIdempotent(n.bunuri[i]);
    }
    forall i | 0 <= i < |n.anterioare| ensures cc.anterioare[i] == c.anterioare[i] {
      CleanCodeIdempotent(n.anterioare[i].uit);
    }
    assert cc.bunuri == c.bunuri && cc.documente == c.documente && cc.anterioare == c.anterioare;
  }

  /** The canonical spelling is stable. */
  lemma CanonIdempotent(doc: ETransport)
    ensures Canon(Canon(doc)) == Canon(doc)
  {
    if doc.notificare.Some? {
      CanonNotificareIdempotent(doc.notificare.value);
    } else if doc.stergere.Some? {
      CleanCodeIdempotent(doc.stergere.value);
    } else if doc.confirmare.Some? {
      CleanCodeIdempotent(doc.confirmare.value.uit);
    } else if doc.modifVehicul.Some? {
      var m := doc.modifVehicul.value;
      CleanCodeIdempotent(m.uit);
      CleanCodeIdempotent(m.nrVehicul);
      CleanIfAnyIdempotent(m.nrRemorca1);
      CleanIfAnyIdempotent(m.nrRemorca2);
    }
  }

  /** Canonicalising keeps the meaning: the canonical spelling reads as the same flat
      document, a vehicle change's instant to the second. */
  lemma ReadCanonical(doc: ETransport, now: Moment)
    requires Read(doc).Ok?
    ensures Read(Canon(doc)) == Ok(Filled(Read(doc).value, doc.codDeclarant, now))
  {
    BuildAfterRead(doc, now);
    ReadAfterBuild(Read(doc).value, None, now);
  }

  /** What the builder writes is canonical already. */
  lemma BuiltIsCanonical(f: Flat, argument: Option<string>, now: Moment)
    requires ValidFlat(f) && Build(f, argument, now).Ok? && IsDeclarantCode(Build(f, argument, now).value.codDeclarant)
    ensures Canon(Build(f, argument, now).value) == Build(f, argument, now).value
  {
    var wire := Build(f, argument, now).value;
    ReadAfterBuild(f, argument, now);
    BuildAfterRead(wire, now);
    RebuildFilled(f, argument, now);
  }

  /** Building what was filled in gives the same document again. */
  lemma RebuildFilled(f: Flat, argument: Option<string>, now: Moment)
    requires ValidFlat(f) && Build(f, argument, now).Ok?
    requires var code := Build(f, argument, now).value.codDeclarant; IsDeclarantCode(code)
    requires ValidFlat(Filled(f, Build(f, argument, now).value.codDeclarant, now))
    ensures Build(Filled(f, Build(f, argument, now).value.codDeclarant, now), None, now) == Build(f, argument, now)
  {
  }
}
