/** What the certificate reconciliation service does to the certificates
    list, stated as functions of the list's contents, and the properties of
    those functions: the upsert targets the latest matching record, merges
    only the supplied columns and replaces attachments wholesale; the
    attachment replacements never create a record; the bulk delete removes
    exactly the plate's records in batches of ten; the reads see the latest
    record of each kind. */
module CertificadosSpec {
  import opened Wrappers
  import opened Dates
  import opened Text
  import opened CertStore

  /** The argument of `addOrUpdateCertificado`. `None` is an omitted
      property; `adjuntos == []` stands for both an absent and an empty
      list. */
  datatype Certificado = Certificado(
    placa: string,
    certificado: Option<string>,
    emision: Option<Date>,
    caducidad: Option<Date>,
    anio: Option<AnioValue>,
    resolucion: Option<Date>,
    expediente: Option<string>,
    adjuntos: seq<FileRef>)

  /** JavaScript truthiness of an optional string. */
  predicate Truthy(s: Option<string>) {
    s.Some? && s.value != ""
  }

  function IfTruthy(s: Option<string>): (r: Option<string>)
    ensures Truthy(s) ==> r == s
    ensures !Truthy(s) ==> r == None
  {
    if Truthy(s) then s else None
  }

  /** The payload built from the argument: the title is the plate; a string
      property goes in when it is non-empty, a date when it is present, the
      year whenever it is neither null nor undefined. */
  function PayloadOf(c: Certificado): Payload {
    Payload(c.placa, IfTruthy(c.certificado), c.emision, c.caducidad, c.anio,
      c.resolucion, IfTruthy(c.expediente))
  }

  /** The kind the upsert looks for: the given kind, or "" when none. */
  function UpsertKind(c: Certificado): string {
    if Truthy(c.certificado) then c.certificado.value else ""
  }

  function Names(files: seq<FileRef>): (r: seq<string>)
    ensures |r| == |files|
    ensures forall i :: 0 <= i < |files| ==> r[i] == files[i].name
  {
    seq(|files|, i requires 0 <= i < |files| => files[i].name)
  }

  /** The largest identifier of a non-empty set. */
  ghost function MaxOf(ids: set<nat>): (m: nat)
    requires ids != {}
    ensures m in ids && forall x :: x in ids ==> x <= m
  {
    var pick :| pick in ids;
    if ids == {pick} then
      assert forall y :: y in ids ==> y == pick;
      pick
    else
      var rest := MaxOf(ids - {pick});
      assert forall y :: y in ids ==> y == pick || y in ids - {pick};
      if pick < rest then rest else pick
  }

  lemma MaxOfUnique(ids: set<nat>, m: nat)
    requires m in ids && forall x :: x in ids ==> x <= m
    ensures MaxOf(ids) == m
  {
  }

  // ---------------------------------------------------------------------------
  // addOrUpdateCertificado
  // ---------------------------------------------------------------------------

  /** The records whose title is the plate and whose kind is exactly the
      kind looked for. */
  ghost function UpsertMatches(s: Store, c: Certificado): set<nat> {
    set id | id in s.items && s.items[id].title == c.placa
      && s.items[id].certificado == Some(UpsertKind(c))
  }

  datatype Outcome = Outcome(store: Store, id: nat)

  /** `addOrUpdateCertificado`: update the latest match, or add a record;
      then, when files are given, make them the record's only attachments. */
  ghost function Upsert(s: Store, c: Certificado): Outcome {
    var ms := UpsertMatches(s, c);
    var p := PayloadOf(c);
    var o :=
      if ms != {} then
        var id := MaxOf(ms);
        Outcome(s.(items := s.items[id := Updated(s.items[id], p)]), id)
      else
        Outcome(Store(s.items[s.nextId := Created(p)], s.nextId + 1), s.nextId);
    if |c.adjuntos| > 0 then
      o.(store := o.store.(items := o.store.items[o.id := o.store.items[o.id].(attachments := Names(c.adjuntos))]))
    else o
  }

  /** When records with the plate and the kind exist, the one with the
      largest `Id` is the one updated and returned; no record is added. */
  lemma UpsertUpdatesLatest(s: Store, c: Certificado)
    requires ValidStore(s) && UpsertMatches(s, c) != {}
    ensures var o := Upsert(s, c);
      && o.id in UpsertMatches(s, c)
      && (forall x :: x in UpsertMatches(s, c) ==> x <= o.id)
      && o.store.items.Keys == s.items.Keys
      && o.store.nextId == s.nextId
  {
  }

  /** When no record has the plate and the kind, exactly one record is
      added, under a fresh `Id` larger than every existing one. */
  lemma UpsertCreatesOne(s: Store, c: Certificado)
    requires ValidStore(s) && UpsertMatches(s, c) == {}
    ensures var o := Upsert(s, c);
      && o.id !in s.items
      && (forall x :: x in s.items ==> x < o.id)
      && o.store.items.Keys == s.items.Keys + {o.id}
      && o.store.nextId == s.nextId + 1
  {
  }

  /** The upsert keeps the list well formed and touches no record but its
      target. */
  lemma UpsertFrame(s: Store, c: Certificado)
    requires ValidStore(s)
    ensures var o := Upsert(s, c);
      && ValidStore(o.store)
      && o.id in o.store.items
      && (forall x :: x in s.items && x != o.id ==> x in o.store.items && o.store.items[x] == s.items[x])
  {
  }

  /** After the upsert the target carries the plate and the kind, every
      supplied column has the supplied value, and every omitted column keeps
      what it had (or is empty on a new record): an update never clears a
      column the caller left out. */
  lemma UpsertColumns(s: Store, c: Certificado)
    requires ValidStore(s)
    ensures var o := Upsert(s, c);
      var r := o.store.items[o.id];
      var before := if o.id in s.items then Some(s.items[o.id]) else None;
      && r.title == c.placa
      && (Truthy(c.certificado) ==> r.certificado == c.certificado)
      && (c.emision.Some? ==> r.emision == c.emision)
      && (c.caducidad.Some? ==> r.caducidad == c.caducidad)
      && (c.anio.Some? ==> r.anio == c.anio)
      && (c.resolucion.Some? ==> r.resolucion == c.resolucion)
      && (Truthy(c.expediente) ==> r.expediente == c.expediente)
      && (before.Some? ==>
            && (!Truthy(c.certificado) ==> r.certificado == before.value.certificado)
            && (c.emision.None? ==> r.emision == before.value.emision)
            && (c.caducidad.None? ==> r.caducidad == before.value.caducidad)
            && (c.anio.None? ==> r.anio == before.value.anio)
            && (c.resolucion.None? ==> r.resolucion == before.value.resolucion)
            && (!Truthy(c.expediente) ==> r.expediente == before.value.expediente))
  {
  }

  /** With files, the target's attachments are exactly their names in the
      given order and no earlier attachment survives; without files, an
      updated record keeps its attachments and a new one has none. */
  lemma UpsertAttachments(s: Store, c: Certificado)
    requires ValidStore(s)
    ensures var o := Upsert(s, c);
      var after := o.store.items[o.id].attachments;
      && (|c.adjuntos| > 0 ==> after == Names(c.adjuntos))
      && (|c.adjuntos| == 0 && o.id in s.items ==> after == s.items[o.id].attachments)
      && (|c.adjuntos| == 0 && o.id !in s.items ==> after == [])
  {
  }

  /** A second upsert for the same plate and non-empty kind targets the
      record the first one returned. */
  lemma UpsertAgainTargetsSameRecord(s: Store, c: Certificado, c2: Certificado)
    requires ValidStore(s) && Truthy(c.certificado)
    requires c2.placa == c.placa && c2.certificado == c.certificado
    ensures Upsert(Upsert(s, c).store, c2).id == Upsert(s, c).id
  {
    var o := Upsert(s, c);
    UpsertFrame(s, c);
    UpsertColumns(s, c);
    var ms := UpsertMatches(o.store, c2);
    assert o.id in ms;
    forall x | x in ms
      ensures x <= o.id
    {
      if x != o.id {
        assert x in s.items && s.items[x] == o.store.items[x];
        assert x in UpsertMatches(s, c);
        if UpsertMatches(s, c) != {} {
          UpsertUpdatesLatest(s, c);
        } else {
          assert false;
        }
      }
    }
    MaxOfUnique(ms, o.id);
  }

  /** Re-running the same upsert changes nothing further: a save that is
      retried after a failure converges to the state of one save. */
  lemma UpsertIdempotent(s: Store, c: Certificado)
    requires ValidStore(s) && Truthy(c.certificado)
    ensures Upsert(Upsert(s, c).store, c) == Upsert(s, c)
  {
    var o := Upsert(s, c);
    var o2 := Upsert(o.store, c);
    UpsertAgainKeepsTarget(s, c);
    UpsertFrame(s, c);
    UpsertFrame(o.store, c);
    UpsertColumns(s, c);
    assert o.id in UpsertMatches(o.store, c);
    UpsertUpdatesLatest(o.store, c);
    assert o2.store.items == o.store.items;
  }

  /** The second of two equal upserts finds the first one's record and
      leaves it as it was. */
  lemma UpsertAgainKeepsTarget(s: Store, c: Certificado)
    requires ValidStore(s) && Truthy(c.certificado)
    ensures var o := Upsert(s, c);
      var o2 := Upsert(o.store, c);
      o2.id == o.id && o.id in o2.store.items && o2.store.items[o.id] == o.store.items[o.id]
  {
    var o := Upsert(s, c);
    UpsertFrame(s, c);
    UpsertAgainTargetsSameRecord(s, c, c);
    UpsertColumns(s, c);
    UpsertAttachments(s, c);
    var o2 := Upsert(o.store, c);
    UpsertFrame(o.store, c);
    UpsertAttachments(o.store, c);
    UpsertColumns(o.store, c);
    var r, r2 := o.store.items[o.id], o2.store.items[o.id];
    assert r2 == r;
  }

  /** Saving a kind with file A and then again with only file B leaves file
      B as the record's one attachment, never both. */
  lemma UpsertReplacesAttachmentOnUpdate(s: Store, c: Certificado, fileA: FileRef, fileB: FileRef)
    requires ValidStore(s) && Truthy(c.certificado) && c.adjuntos == [fileA]
    ensures var o := Upsert(s, c);
      var c2 := Certificado(c.placa, c.certificado, None, None, None, None, None, [fileB]);
      var o2 := Upsert(o.store, c2);
      o2.id == o.id && o2.store.items[o2.id].attachments == [fileB.name]
  {
    var o := Upsert(s, c);
    var c2 := Certificado(c.placa, c.certificado, None, None, None, None, None, [fileB]);
    UpsertFrame(s, c);
    UpsertAgainTargetsSameRecord(s, c, c2);
    UpsertAttachments(o.store, c2);
  }

  // ---------------------------------------------------------------------------
  // replaceCertificadoAdjunto, replaceAdjuntoById
  // ---------------------------------------------------------------------------

  datatype ReplaceError = NotFound

  /** The records of the plate whose kind is `tipo` as given or upper-cased. */
  ghost function ReplaceMatches(s: Store, placa: string, tipo: string): set<nat> {
    set id | id in s.items && s.items[id].title == placa
      && (s.items[id].certificado == Some(tipo) || s.items[id].certificado == Some(Upper(tipo)))
  }

  function WithOnlyAttachment(s: Store, id: nat, name: string): Store
    requires id in s.items
  {
    s.(items := s.items[id := s.items[id].(attachments := [name])])
  }

  /** `replaceAdjuntoById`: the record's attachments become the one file;
      an unknown `Id` fails. */
  ghost function ReplaceById(s: Store, id: nat, file: FileRef): Result<Outcome, ReplaceError> {
    if id in s.items then Success(Outcome(WithOnlyAttachment(s, id, file.name), id))
    else Failure(NotFound)
  }

  /** `replaceCertificadoAdjunto`: the same, on the latest record of the
      plate and kind; fails when there is none. */
  ghost function ReplaceByKind(s: Store, placa: string, tipo: string, file: FileRef): Result<Outcome, ReplaceError> {
    var ms := ReplaceMatches(s, placa, tipo);
    if ms == {} then Failure(NotFound) else ReplaceById(s, MaxOf(ms), file)
  }

  /** The replacement by kind fails exactly when no record matches, and
      otherwise acts as the replacement by `Id` on the latest match. */
  lemma ReplaceByKindIsReplaceByIdOfLatest(s: Store, placa: string, tipo: string, file: FileRef)
    ensures ReplaceByKind(s, placa, tipo, file).Failure? <==> ReplaceMatches(s, placa, tipo) == {}
    ensures ReplaceMatches(s, placa, tipo) != {} ==>
      exists id :: id in ReplaceMatches(s, placa, tipo)
        && (forall x :: x in ReplaceMatches(s, placa, tipo) ==> x <= id)
        && ReplaceByKind(s, placa, tipo, file) == ReplaceById(s, id, file)
  {
    var ms := ReplaceMatches(s, placa, tipo);
    if ms != {} {
      var id := MaxOf(ms);
      assert id in ms;
    }
  }

  /** A replacement never creates or removes a record and leaves the
      next `Id` alone; on success the target's one attachment is the new
      file, every other column and record is as before; on failure nothing
      changed. */
  lemma ReplaceByIdEffect(s: Store, id: nat, file: FileRef)
    requires ValidStore(s)
    ensures var r := ReplaceById(s, id, file);
      && (r.Failure? <==> id !in s.items)
      && (r.Success? ==>
            && r.value.id == id
            && ValidStore(r.value.store)
            && r.value.store.items.Keys == s.items.Keys
            && r.value.store.nextId == s.nextId
            && r.value.store.items[id].attachments == [file.name]
            && r.value.store.items[id] == s.items[id].(attachments := [file.name])
            && (forall x :: x in s.items && x != id ==> r.value.store.items[x] == s.items[x]))
  {
  }

  // ---------------------------------------------------------------------------
  // deleteCertificadosPorPlaca
  // ---------------------------------------------------------------------------

  ghost function PlateIds(s: Store, placa: string): set<nat> {
    set id | id in s.items && s.items[id].title == placa
  }

  /** `deleteCertificadosPorPlaca`: every record whose title is the trimmed
      plate is deleted; a blank plate deletes nothing. */
  ghost function DeleteForPlate(s: Store, placa: string): Store {
    var p := Trim(placa);
    if p == "" then s
    else s.(items := map id | id in s.items && s.items[id].title != p :: s.items[id])
  }

  /** The deletion removes exactly the plate's records and leaves every
      other record, and the next `Id`, as they were. */
  lemma DeleteForPlateEffect(s: Store, placa: string)
    ensures var d := DeleteForPlate(s, placa);
      var p := Trim(placa);
      && d.nextId == s.nextId
      && (p == "" || PlateIds(s, p) == {} ==> d == s)
      && (p != "" ==> d.items.Keys == s.items.Keys - PlateIds(s, p))
      && (forall id :: id in d.items ==> id in s.items && d.items[id] == s.items[id])
      && (p != "" ==> forall id :: id in d.items ==> d.items[id].title != p)
  {
    var p := Trim(placa);
    if p != "" && PlateIds(s, p) == {} {
      forall id | id in s.items
        ensures s.items[id].title != p
      {
        assert id !in PlateIds(s, p);
      }
      assert DeleteForPlate(s, placa).items == s.items;
    }
  }

  /** Deleting a plate's certificates twice is the same as deleting them
      once: decommissioning can be re-run safely. */
  lemma DeleteForPlateIdempotent(s: Store, placa: string)
    ensures DeleteForPlate(DeleteForPlate(s, placa), placa) == DeleteForPlate(s, placa)
  {
    var d := DeleteForPlate(s, placa);
    var p := Trim(placa);
    if p != "" {
      assert DeleteForPlate(d, placa).items == d.items;
    }
  }

  /** The number of deletions issued together. */
  const ChunkSize: nat := 10

  /** The batches of at most ten consecutive `Id`s, as
      `for (i = 0; i < ids.length; i += 10) ids.slice(i, i + 10)` produces
      them. */
  function Chunks(ids: seq<nat>): seq<seq<nat>>
    decreases |ids|
  {
    if ids == [] then []
    else if |ids| <= ChunkSize then [ids]
    else [ids[..ChunkSize]] + Chunks(ids[ChunkSize..])
  }

  function Concat(ss: seq<seq<nat>>): seq<nat> {
    if ss == [] then [] else ss[0] + Concat(ss[1..])
  }

  /** The batches cover the `Id`s exactly once and in order. */
  lemma {:induction false} ChunksCover(ids: seq<nat>)
    ensures Concat(Chunks(ids)) == ids
  {
    if |ids| > ChunkSize {
      ChunksCover(ids[ChunkSize..]);
      assert Chunks(ids)[1..] == Chunks(ids[ChunkSize..]);
      assert ids == ids[..ChunkSize] + ids[ChunkSize..];
    } else if ids != [] {
      assert Concat(Chunks(ids)) == ids + Concat([]);
    }
  }

  /** There are ceil(n / 10) batches; each holds between 1 and 10 `Id`s and
      all but the last hold exactly 10. */
  lemma {:induction false} ChunksSizes(ids: seq<nat>)
    ensures var cs := Chunks(ids);
      && |cs| == (|ids| + ChunkSize - 1) / ChunkSize
      && (forall i :: 0 <= i < |cs| ==> 1 <= |cs[i]| <= ChunkSize)
      && (forall i :: 0 <= i < |cs| - 1 ==> |cs[i]| == ChunkSize)
  {
    if |ids| > ChunkSize {
      ChunksSizes(ids[ChunkSize..]);
      var cs, rest := Chunks(ids), Chunks(ids[ChunkSize..]);
      assert cs == [ids[..ChunkSize]] + rest;
      assert forall i :: 1 <= i < |cs| ==> cs[i] == rest[i - 1];
    }
  }

  /** Twenty-three records are deleted in three batches of 10, 10 and 3. */
  lemma ChunksOfTwentyThree(ids: seq<nat>)
    requires |ids| == 23
    ensures var cs := Chunks(ids);
      |cs| == 3 && |cs[0]| == 10 && |cs[1]| == 10 && |cs[2]| == 3
  {
    var cs := Chunks(ids);
    assert cs == [ids[..10]] + Chunks(ids[10..]);
    assert Chunks(ids[10..]) == [ids[10..][..10]] + Chunks(ids[10..][10..]);
    assert Chunks(ids[10..][10..]) == [ids[10..][10..]];
  }

  // ---------------------------------------------------------------------------
  // getCertificadosEstado, getCertificadosListado
  // ---------------------------------------------------------------------------

  /** The key a record is grouped under: its kind upper-cased, "" when the
      kind is empty. */
  function KindKey(r: CertRecord): string {
    Upper(r.certificado.GetOr(""))
  }

  ghost function KindIds(s: Store, placa: string, k: string): set<nat> {
    set id | id in s.items && s.items[id].title == placa && KindKey(s.items[id]) == k
  }

  /** The latest record of the plate under key `k`: the one with the
      largest `Id`. Records with smaller `Id`s are shadowed, not merged. */
  ghost function Latest(s: Store, placa: string, k: string): Option<CertRecord> {
    var ids := KindIds(s, placa, k);
    if ids == {} then None else Some(s.items[MaxOf(ids)])
  }

  /** The keys under which the plate has records. */
  ghost function Kinds(s: Store, placa: string): set<string> {
    set id | id in s.items && s.items[id].title == placa :: KindKey(s.items[id])
  }

  /** A shadowed record never shows through: when two records of the plate
      share a key, the one with the smaller `Id` is not the latest. */
  lemma LatestShadows(s: Store, placa: string, k: string, older: nat, newer: nat)
    requires older in KindIds(s, placa, k) && newer in KindIds(s, placa, k) && older < newer
    ensures Latest(s, placa, k).Some?
    ensures MaxOf(KindIds(s, placa, k)) != older
  {
  }

  /** `x + ""` for the value of the `Anio` column. */
  function AnioString(a: AnioValue): string {
    match a
    case AnioText(t) => t
    case AnioNumber(n) => DecimalString(n)
  }

  /** The form state `getCertificadosEstado` returns. */
  datatype CertificadosEstado = CertificadosEstado(
    propFile: Option<FileRef>,
    resBonificacionFile: Option<FileRef>,
    certBonificacionDate: Option<Date>,
    certBonificaFile: Option<FileRef>,
    revTecDate: Option<Date>,
    revTecText: string,
    revTecFile: Option<FileRef>,
    SanipesDate: Option<Date>,
    SanipesText: string,
    sanipesFile: Option<FileRef>,
    termokingDate: Option<Date>,
    termokingFile: Option<FileRef>,
    limpiezaDate: Option<Date>,
    limpiezaFile: Option<FileRef>)

  function EmisionOf(r: Option<CertRecord>): Option<Date> {
    if r.Some? then r.value.emision else None
  }

  /** The projection of the latest record of each kind onto the form: the
      dates and texts each kind uses, and no file (attachments are not
      fetched here). */
  function Projection(bonificacion: Option<CertRecord>, revision: Option<CertRecord>,
                      sanipes: Option<CertRecord>, termoking: Option<CertRecord>,
                      limpieza: Option<CertRecord>): (e: CertificadosEstado)
    ensures e.propFile.None? && e.resBonificacionFile.None? && e.certBonificaFile.None?
    ensures e.revTecFile.None? && e.sanipesFile.None? && e.termokingFile.None? && e.limpiezaFile.None?
  {
    CertificadosEstado(
      None, None, EmisionOf(bonificacion), None,
      EmisionOf(revision),
      if revision.Some? && revision.value.anio.Some? then AnioString(revision.value.anio.value) else "",
      None,
      if sanipes.Some? then sanipes.value.resolucion else None,
      if sanipes.Some? && sanipes.value.expediente.Some? then sanipes.value.expediente.value else "",
      None,
      EmisionOf(termoking), None,
      EmisionOf(limpieza), None)
  }

  /** `getCertificadosEstado(placa)` as a function of the list. */
  ghost function EstadoOf(s: Store, placa: string): CertificadosEstado {
    Projection(Latest(s, placa, "CERTIFICADO_BONIFICACION"), Latest(s, placa, "REVISION_TECNICA"),
      Latest(s, placa, "SANIPES"), Latest(s, placa, "TERMOKING"),
      Latest(s, placa, "LIMPIEZA_DESINFECCION"))
  }

  /** A row of `getCertificadosListado`. */
  datatype CertRow = CertRow(
    id: nat,
    tipo: string,
    emision: Option<Date>,
    resolucion: Option<Date>,
    anio: Option<AnioValue>,
    expediente: Option<string>,
    archivo: Option<string>)

  /** The row shown for record `id` under key `tipo`: its columns and the
      name of its first attachment, if any. */
  function RowOf(id: nat, tipo: string, r: CertRecord): CertRow {
    CertRow(id, tipo, r.emision, r.resolucion, r.anio, r.expediente,
      if |r.attachments| > 0 then Some(r.attachments[0]) else None)
  }

  function Tipos(rows: seq<CertRow>): (r: seq<string>)
    ensures |r| == |rows| && forall i :: 0 <= i < |rows| ==> r[i] == rows[i].tipo
  {
    seq(|rows|, i requires 0 <= i < |rows| => rows[i].tipo)
  }
}
