/** The certificate reconciliation service as the list client drives it:
    each operation issues the service's queries and writes against a
    `CertificateList` and is proved to leave the list, and return, what the
    functions of `CertificadosSpec` say. */
module CertificadosService {
  import opened Wrappers
  import opened Dates
  import opened Text
  import opened OData
  import opened CertStore
  import opened CertificadosSpec

  /** `Title eq '<safe(placa)>'` selects exactly the records of the plate. */
  lemma TitleFilter(r: CertRecord, placa: string)
    ensures Satisfies(r, TitleIs(Safe(placa))) <==> r.title == placa
  {
    UnescapeSafe(placa);
  }

  /** The upsert's filter, with `''` as the kind literal when no kind is
      given, selects exactly the records the upsert may update. */
  lemma UpsertFilter(r: CertRecord, c: Certificado, tipo: string)
    requires tipo == if Truthy(c.certificado) then Safe(c.certificado.value) else ""
    ensures Satisfies(r, TitleAndKindIs(Safe(c.placa), tipo))
      <==> r.title == c.placa && r.certificado == Some(UpsertKind(c))
  {
    UnescapeSafe(c.placa);
    UnescapeSafe(UpsertKind(c));
  }

  /** The replacement's filter selects the records of the plate whose kind
      is `tipo` as given or upper-cased. */
  lemma ReplaceFilter(r: CertRecord, placa: string, tipo: string)
    ensures Satisfies(r, TitleAndKindIn(Safe(placa), Safe(tipo), Safe(Upper(tipo))))
      <==> r.title == placa && (r.certificado == Some(tipo) || r.certificado == Some(Upper(tipo)))
  {
    UnescapeSafe(placa);
    UnescapeSafe(tipo);
    UnescapeSafe(Upper(tipo));
  }

  /** `orderBy("Id", false).top(1)`: the first of a descending result is the
      largest `Id` of the result. */
  lemma FirstIsMax(ids: seq<nat>, s: set<nat>)
    requires StrictlyDescending(ids) && |ids| > 0
    requires forall x :: x in s <==> x in ids
    ensures s != {} && MaxOf(s) == ids[0]
  {
    assert ids[0] in s;
    forall x | x in s
      ensures x <= ids[0]
    {
      var i :| 0 <= i < |ids| && ids[i] == x;
      if i > 0 {
        assert ids[0] > ids[i];
      }
    }
    MaxOfUnique(s, ids[0]);
  }

  lemma EmptyWhenNoMember(s: seq<string>)
    ensures (forall x :: x !in s) ==> s == []
  {
    if s != [] {
      assert s[0] in s;
    }
  }

  /** Delete every current attachment of the record, one name at a time,
      then add `names` in order: afterwards the record's attachments are
      exactly `names`, and nothing else in the list has changed. */
  method ReplaceAttachments(list: CertificateList, id: nat, names: seq<string>)
    requires list.Valid() && id in list.items
    modifies list
    ensures list.Valid() && list.nextId == old(list.nextId)
    ensures list.items == old(list.items)[id := old(list.items)[id].(attachments := names)]
  {
    DeleteAttachments(list, id);
    AddAttachments(list, id, names);
    assert [] + names == names;
  }

  /** Deleting the `i`-th name keeps the names left among those not yet
      deleted. */
  lemma WithoutStep(left: seq<string>, current: seq<string>, i: nat)
    requires i < |current|
    requires forall x :: x in left ==> x in current && x !in current[..i]
    ensures forall x :: x in Without(left, current[i]) ==> x in current && x !in current[..i + 1]
  {
    assert current[..i + 1] == current[..i] + [current[i]];
  }

  /** The first loop of the replacement: every current attachment goes. */
  method DeleteAttachments(list: CertificateList, id: nat)
    requires list.Valid() && id in list.items
    modifies list
    ensures list.Valid() && list.nextId == old(list.nextId)
    ensures list.items == old(list.items)[id := old(list.items)[id].(attachments := [])]
  {
    var current := list.AttachmentNames(id);
    ghost var r0 := list.items[id];
    ghost var left := current;
    var i := 0;
    while i < |current|
      invariant 0 <= i <= |current|
      invariant list.Valid() && list.nextId == old(list.nextId)
      invariant list.items == old(list.items)[id := r0.(attachments := left)]
      invariant forall x :: x in left ==> x in current && x !in current[..i]
    {
      list.DeleteAttachment(id, current[i]);
      WithoutStep(left, current, i);
      left := Without(left, current[i]);
      i := i + 1;
    }
    assert current[..i] == current;
    EmptyWhenNoMember(left);
  }

  /** The second loop of the replacement: `names` are added in order. */
  method AddAttachments(list: CertificateList, id: nat, names: seq<string>)
    requires list.Valid() && id in list.items
    modifies list
    ensures list.Valid() && list.nextId == old(list.nextId)
    ensures list.items == old(list.items)[id := old(list.items)[id].(attachments := old(list.items)[id].attachments + names)]
  {
    ghost var before := list.items[id].attachments;
    var j := 0;
    assert before + names[..0] == before;
    assert list.items == old(list.items)[id := old(list.items)[id].(attachments := before)];
    while j < |names|
      invariant 0 <= j <= |names|
      invariant list.Valid() && list.nextId == old(list.nextId) && id in list.items
      invariant list.items == old(list.items)[id := old(list.items)[id].(attachments := before + names[..j])]
    {
      list.AddAttachment(id, names[j]);
      assert names[..j + 1] == names[..j] + [names[j]];
      assert (before + names[..j]) + [names[j]] == before + names[..j + 1];
      j := j + 1;
    }
    assert names[..j] == names;
  }

  /** `addOrUpdateCertificado`: look up the latest record of the plate and
      the kind, update it or add one, then replace its attachments when
      files are given. The list afterwards, and the `Id` returned, are the
      ones `Upsert` describes. */
  method AddOrUpdateCertificado(list: CertificateList, data: Certificado) returns (id: nat)
    requires list.Valid()
    modifies list
    ensures list.Valid()
    ensures Outcome(list.State(), id) == Upsert(old(list.State()), data)
  {
    ghost var s := list.State();
    var payload := PayloadOf(data);
    var tipo := if Truthy(data.certificado) then Safe(data.certificado.value) else "";
    var ex := list.Query(TitleAndKindIs(Safe(data.placa), tipo), true);
    ghost var ms := UpsertMatches(s, data);
    forall x
      ensures x in ms <==> x in ex
    {
      if x in s.items {
        UpsertFilter(s.items[x], data, tipo);
      }
    }
    if |ex| > 0 {
      id := ex[0];
      FirstIsMax(ex, ms);
      list.Update(id, payload);
    } else {
      assert ms == {};
      id := list.Add(payload);
    }
    if |data.adjuntos| > 0 {
      ReplaceAttachments(list, id, Names(data.adjuntos));
    }
  }

  /** The first record of each key in a descending result, as the service
      builds its `Map` keyed by the upper-cased kind: the keys in the order
      they were first met, and for each key the `Id` of its first record,
      which is the largest `Id` with that key. */
  method FirstPerKind(items: map<nat, CertRecord>, ids: seq<nat>)
    returns (byTipo: map<string, nat>, order: seq<string>)
    requires StrictlyDescending(ids)
    requires forall i :: 0 <= i < |ids| ==> ids[i] in items
    ensures forall k :: k in byTipo ==> byTipo[k] in ids && KindKey(items[byTipo[k]]) == k
    ensures forall i :: 0 <= i < |ids| ==>
      KindKey(items[ids[i]]) in byTipo && ids[i] <= byTipo[KindKey(items[ids[i]])]
    ensures NoDuplicates(order) && forall k :: k in order <==> k in byTipo
  {
    byTipo, order := map[], [];
    var i := 0;
    while i < |ids|
      invariant 0 <= i <= |ids|
      invariant forall k :: k in byTipo ==> byTipo[k] in ids[..i] && KindKey(items[byTipo[k]]) == k
      invariant forall j :: 0 <= j < i ==>
        KindKey(items[ids[j]]) in byTipo && ids[j] <= byTipo[KindKey(items[ids[j]])]
      invariant NoDuplicates(order) && forall k :: k in order <==> k in byTipo
    {
      var key := KindKey(items[ids[i]]);
      if key !in byTipo {
        byTipo := byTipo[key := ids[i]];
        order := order + [key];
      } else {
        var j :| 0 <= j < i && ids[j] == byTipo[key];
        assert ids[j] > ids[i];
      }
      assert ids[..i + 1] == ids[..i] + [ids[i]];
      i := i + 1;
    }
    assert ids[..i] == ids;
  }

  /** For every key, the map holds an `Id` exactly when the plate has a
      record under that key, and that `Id` is the latest such record. */
  ghost predicate LatestPerKind(s: Store, placa: string, byTipo: map<string, nat>) {
    && (forall k :: k in byTipo <==> KindIds(s, placa, k) != {})
    && (forall k :: k in byTipo ==> KindIds(s, placa, k) != {} && byTipo[k] == MaxOf(KindIds(s, placa, k)))
  }

  /** What `FirstPerKind` returns on the plate's records, in descending
      order, is the latest record of each key. */
  lemma FirstPerKindIsLatest(s: Store, placa: string, ids: seq<nat>, byTipo: map<string, nat>)
    requires forall x :: x in ids <==> x in s.items && s.items[x].title == placa
    requires forall k :: k in byTipo ==> byTipo[k] in ids && KindKey(s.items[byTipo[k]]) == k
    requires forall i :: 0 <= i < |ids| ==>
      KindKey(s.items[ids[i]]) in byTipo && ids[i] <= byTipo[KindKey(s.items[ids[i]])]
    ensures LatestPerKind(s, placa, byTipo)
  {
    forall k
      ensures k in byTipo <==> KindIds(s, placa, k) != {}
      ensures k in byTipo ==> KindIds(s, placa, k) != {} && byTipo[k] == MaxOf(KindIds(s, placa, k))
    {
      var ks := KindIds(s, placa, k);
      if k in byTipo {
        assert byTipo[k] in ks;
        forall x | x in ks
          ensures x <= byTipo[k]
        {
          var i :| 0 <= i < |ids| && ids[i] == x;
        }
        MaxOfUnique(ks, byTipo[k]);
      }
    }
  }

  /** The keys of such a map are the plate's kinds. */
  lemma KindsAreKeys(s: Store, placa: string, byTipo: map<string, nat>)
    requires LatestPerKind(s, placa, byTipo)
    ensures forall k :: k in byTipo <==> k in Kinds(s, placa)
  {
    forall k
      ensures k in byTipo <==> k in Kinds(s, placa)
    {
      if k in Kinds(s, placa) {
        var x :| x in s.items && s.items[x].title == placa && KindKey(s.items[x]) == k;
        assert x in KindIds(s, placa, k);
      }
    }
  }

  /** The records of one plate, latest first, as the reads fetch them. */
  method PlateRecordsDescending(list: CertificateList, placa: string) returns (ids: seq<nat>)
    requires list.Valid()
    ensures StrictlyDescending(ids)
    ensures forall x :: x in ids <==> x in list.items && list.items[x].title == placa
  {
    ids := list.Query(TitleIs(Safe(placa)), true);
    forall x | x in list.items
      ensures x in ids <==> list.items[x].title == placa
    {
      TitleFilter(list.items[x], placa);
    }
  }

  /** The plate's records fetched newest first and reduced to the first
      one of each key: the latest record of every key, and the keys in the
      order they were met. */
  method LatestByKind(list: CertificateList, placa: string)
    returns (byTipo: map<string, nat>, order: seq<string>)
    requires list.Valid()
    ensures LatestPerKind(list.State(), placa, byTipo)
    ensures forall k :: k in byTipo ==> byTipo[k] in list.items
    ensures NoDuplicates(order) && forall k :: k in order <==> k in byTipo
  {
    var ids := PlateRecordsDescending(list, placa);
    byTipo, order := FirstPerKind(list.items, ids);
    FirstPerKindIsLatest(list.State(), placa, ids, byTipo);
  }

  function Lookup(items: map<nat, CertRecord>, byTipo: map<string, nat>, k: string): Option<CertRecord> {
    if k in byTipo && byTipo[k] in items then Some(items[byTipo[k]]) else None
  }

  /** `getCertificadosEstado`: the form state built from the latest record
      of each kind of the plate. */
  method GetCertificadosEstado(list: CertificateList, placa: string) returns (e: CertificadosEstado)
    requires list.Valid()
    ensures e == EstadoOf(list.State(), placa)
  {
    var byTipo, _ := LatestByKind(list, placa);
    var items := list.items;
    e := Projection(Lookup(items, byTipo, "CERTIFICADO_BONIFICACION"),
      Lookup(items, byTipo, "REVISION_TECNICA"), Lookup(items, byTipo, "SANIPES"),
      Lookup(items, byTipo, "TERMOKING"), Lookup(items, byTipo, "LIMPIEZA_DESINFECCION"));
  }

  /** Rows built from such a map, one per key in `tipos`, show the latest
      record of their key. */
  lemma RowsShowLatest(s: Store, placa: string, byTipo: map<string, nat>, tipos: seq<string>, rows: seq<CertRow>)
    requires LatestPerKind(s, placa, byTipo)
    requires |rows| == |tipos|
    requires forall j :: 0 <= j < |tipos| ==> tipos[j] in byTipo
    requires forall j :: 0 <= j < |rows| ==>
      (rows[j].tipo == tipos[j] && byTipo[tipos[j]] in s.items
       && rows[j] == RowOf(byTipo[tipos[j]], tipos[j], s.items[byTipo[tipos[j]]]))
    ensures forall i :: 0 <= i < |rows| ==>
      var ks := KindIds(s, placa, rows[i].tipo);
      ks != {} && rows[i] == RowOf(MaxOf(ks), rows[i].tipo, s.items[MaxOf(ks)])
  {
    forall i | 0 <= i < |rows|
      ensures var ks := KindIds(s, placa, rows[i].tipo);
        ks != {} && rows[i] == RowOf(MaxOf(ks), rows[i].tipo, s.items[MaxOf(ks)])
    {
      assert tipos[i] in byTipo;
    }
  }

  /** `getCertificadosListado`: one row per key under which the plate has
      records, sorted by key, each showing the latest record of its key and
      that record's first attachment. */
  method GetCertificadosListado(list: CertificateList, placa: string) returns (rows: seq<CertRow>)
    requires list.Valid()
    ensures StrictlySorted(Tipos(rows))
    ensures forall k :: k in Tipos(rows) <==> k in Kinds(list.State(), placa)
    ensures forall i :: 0 <= i < |rows| ==>
      var ks := KindIds(list.State(), placa, rows[i].tipo);
      ks != {} && rows[i] == RowOf(MaxOf(ks), rows[i].tipo, list.items[MaxOf(ks)])
  {
    var items := list.items;
    ghost var s := list.State();
    var byTipo, order := LatestByKind(list, placa);
    var tipos := SortStrings(order);
    rows := RowsFor(items, byTipo, tipos);
    assert Tipos(rows) == tipos;
    KindsAreKeys(s, placa, byTipo);
    RowsShowLatest(s, placa, byTipo, tipos, rows);
  }

  /** The rows of the listing, in the order of `tipos`, each built from
      the record `byTipo` picks for its key. */
  method RowsFor(items: map<nat, CertRecord>, byTipo: map<string, nat>, tipos: seq<string>)
    returns (rows: seq<CertRow>)
    requires forall j :: 0 <= j < |tipos| ==> tipos[j] in byTipo && byTipo[tipos[j]] in items
    ensures |rows| == |tipos|
    ensures forall j :: 0 <= j < |rows| ==>
      (rows[j].tipo == tipos[j] && byTipo[tipos[j]] in items
       && rows[j] == RowOf(byTipo[tipos[j]], tipos[j], items[byTipo[tipos[j]]]))
  {
    rows := [];
    var i := 0;
    while i < |tipos|
      invariant 0 <= i <= |tipos|
      invariant |rows| == i
      invariant forall j :: 0 <= j < i ==>
        (rows[j].tipo == tipos[j] && byTipo[tipos[j]] in items
         && rows[j] == RowOf(byTipo[tipos[j]], tipos[j], items[byTipo[tipos[j]]]))
    {
      var t := tipos[i];
      var id := byTipo[t];
      rows := rows + [RowOf(id, t, items[id])];
      i := i + 1;
    }
  }

  function Min(a: int, b: int): int {
    if a < b then a else b
  }

  /** One batch of deletions, issued together: every `Id` of the batch is
      deleted once and no other record changes. */
  method DeleteBatch(list: CertificateList, batch: seq<nat>)
    requires list.Valid() && StrictlyAscending(batch)
    requires forall j :: 0 <= j < |batch| ==> batch[j] in list.items
    modifies list
    ensures list.Valid() && list.nextId == old(list.nextId)
    ensures forall x :: x in list.items <==> x in old(list.items) && x !in batch
    ensures forall x :: x in list.items ==> list.items[x] == old(list.items)[x]
  {
    var j := 0;
    while j < |batch|
      invariant 0 <= j <= |batch|
      invariant list.Valid() && list.nextId == old(list.nextId)
      invariant forall x :: x in list.items <==> x in old(list.items) && x !in batch[..j]
      invariant forall x :: x in list.items ==> list.items[x] == old(list.items)[x]
    {
      list.Delete(batch[j]);
      assert batch[..j + 1] == batch[..j] + [batch[j]];
      j := j + 1;
    }
    assert batch[..j] == batch;
  }

  /** The next batch starting at `i` is the first chunk of what remains. */
  lemma NextChunk(ids: seq<nat>, i: nat)
    requires i < |ids|
    ensures var hi := Min(i + ChunkSize, |ids|);
      Chunks(ids[i..]) == [ids[i..hi]] + Chunks(ids[hi..])
  {
    var hi := Min(i + ChunkSize, |ids|);
    if |ids[i..]| <= ChunkSize {
      assert ids[i..hi] == ids[i..] && ids[hi..] == [];
      assert Chunks(ids[hi..]) == [];
    } else {
      assert ids[i..][..ChunkSize] == ids[i..hi] && ids[i..][ChunkSize..] == ids[hi..];
    }
  }

  /** A batch of an ascending sequence is ascending, and its `Id`s are
      in the sequence but not before the batch. */
  lemma SliceAfterPrefix(ids: seq<nat>, i: nat, hi: nat)
    requires StrictlyAscending(ids) && i <= hi <= |ids|
    ensures StrictlyAscending(ids[i..hi])
    ensures forall j :: 0 <= j < hi - i ==> ids[i..hi][j] in ids && ids[i..hi][j] !in ids[..i]
    ensures ids[..hi] == ids[..i] + ids[i..hi]
  {
    forall j | 0 <= j < hi - i
      ensures ids[i..hi][j] in ids && ids[i..hi][j] !in ids[..i]
    {
      assert ids[i..hi][j] == ids[i + j];
    }
  }

  /** The `for` loop over the batches: `ids` is cut into consecutive
      batches of ten and each batch is deleted in turn. */
  method DeleteInBatches(list: CertificateList, ids: seq<nat>) returns (ghost batches: seq<seq<nat>>)
    requires list.Valid() && StrictlyAscending(ids)
    requires forall x :: x in ids ==> x in list.items
    modifies list
    ensures list.Valid() && list.nextId == old(list.nextId)
    ensures batches == Chunks(ids)
    ensures forall x :: x in list.items <==> x in old(list.items) && x !in ids
    ensures forall x :: x in list.items ==> list.items[x] == old(list.items)[x]
  {
    batches := [];
    var i := 0;
    while i < |ids|
      invariant list.Valid() && list.nextId == old(list.nextId)
      invariant batches + Chunks(ids[Min(i, |ids|)..]) == Chunks(ids)
      invariant forall x :: x in list.items <==> x in old(list.items) && x !in ids[..Min(i, |ids|)]
      invariant forall x :: x in list.items ==> list.items[x] == old(list.items)[x]
    {
      var hi := Min(i + ChunkSize, |ids|);
      var slice := ids[i..hi];
      SliceAfterPrefix(ids, i, hi);
      DeleteBatch(list, slice);
      NextChunk(ids, i);
      batches := batches + [slice];
      i := i + ChunkSize;
    }
    assert ids[..|ids|] == ids && ids[|ids|..] == [];
  }

  /** `deleteCertificadosPorPlaca`: the trimmed plate's records are
      fetched in the store's default order and deleted in consecutive
      batches of ten. The list afterwards is `DeleteForPlate` of the list
      before; the batches are the chunks of the plate's `Id`s in ascending
      order, each `Id` deleted once. */
  method DeleteCertificadosPorPlaca(list: CertificateList, placa: string)
    returns (ghost batches: seq<seq<nat>>)
    requires list.Valid()
    modifies list
    ensures list.Valid()
    ensures list.State() == DeleteForPlate(old(list.State()), placa)
    ensures Chunks(Concat(batches)) == batches
    ensures StrictlyAscending(Concat(batches))
    ensures forall x :: x in Concat(batches) <==> Trim(placa) != "" && x in PlateIds(old(list.State()), Trim(placa))
  {
    var p := Trim(placa);
    if p == "" {
      return [];
    }
    var ids := list.Query(TitleIs(Safe(p)), false);
    forall x | x in list.items
      ensures x in ids <==> list.items[x].title == p
    {
      TitleFilter(list.items[x], p);
    }
    if |ids| == 0 {
      assert PlateIds(list.State(), p) == {};
      DeleteForPlateEffect(list.State(), placa);
      return [];
    }
    batches := DeleteInBatches(list, ids);
    ChunksCover(ids);
    DeleteMatches(old(list.State()), placa, ids, list.State());
  }

  /** Removing exactly the `Id`s of the plate's records is `DeleteForPlate`. */
  lemma DeleteMatches(s: Store, placa: string, ids: seq<nat>, t: Store)
    requires Trim(placa) != ""
    requires forall x :: x in ids <==> x in s.items && s.items[x].title == Trim(placa)
    requires t.nextId == s.nextId
    requires forall x :: x in t.items <==> x in s.items && x !in ids
    requires forall x :: x in t.items ==> t.items[x] == s.items[x]
    ensures t == DeleteForPlate(s, placa)
  {
    assert t.items == DeleteForPlate(s, placa).items;
  }

  datatype Replaced = Replaced(id: nat, archivo: string)

  /** Replace the record's attachments with the one file and read back the
      name of its first attachment, falling back to the file's own name. */
  method ReplaceWith(list: CertificateList, id: nat, newFile: FileRef) returns (r: Replaced)
    requires list.Valid() && id in list.items
    modifies list
    ensures list.Valid()
    ensures list.State() == WithOnlyAttachment(old(list.State()), id, newFile.name)
    ensures r == Replaced(id, newFile.name)
  {
    ReplaceAttachments(list, id, [newFile.name]);
    var names := list.AttachmentNames(id);
    var archivo := if |names| > 0 then names[0] else newFile.name;
    r := Replaced(id, archivo);
  }

  /** `replaceCertificadoAdjunto`: the latest record of the plate whose
      kind is `tipo` or its upper-case form gets the file as its only
      attachment; with no such record nothing changes and the call fails. */
  method ReplaceCertificadoAdjunto(list: CertificateList, placa: string, tipo: string, newFile: FileRef)
    returns (r: Result<Replaced, ReplaceError>)
    requires list.Valid()
    modifies list
    ensures list.Valid()
    ensures var spec := ReplaceByKind(old(list.State()), placa, tipo, newFile);
      && (r.Failure? <==> spec.Failure?)
      && (r.Failure? ==> list.State() == old(list.State()))
      && (r.Success? ==>
            spec.Success? && r.value == Replaced(spec.value.id, newFile.name)
            && list.State() == spec.value.store)
  {
    ghost var s := list.State();
    var ids := list.Query(TitleAndKindIn(Safe(placa), Safe(tipo), Safe(Upper(tipo))), true);
    ghost var ms := ReplaceMatches(s, placa, tipo);
    forall x
      ensures x in ms <==> x in ids
    {
      if x in s.items {
        ReplaceFilter(s.items[x], placa, tipo);
      }
    }
    if |ids| == 0 {
      assert ms == {};
      return Failure(NotFound);
    }
    FirstIsMax(ids, ms);
    var done := ReplaceWith(list, ids[0], newFile);
    r := Success(done);
  }

  /** `replaceAdjuntoById`: the record with that `Id` gets the file as its
      only attachment; an unknown `Id` fails and changes nothing. */
  method ReplaceAdjuntoById(list: CertificateList, itemId: nat, newFile: FileRef)
    returns (r: Result<Replaced, ReplaceError>)
    requires list.Valid()
    modifies list
    ensures list.Valid()
    ensures var spec := ReplaceById(old(list.State()), itemId, newFile);
      && (r.Failure? <==> spec.Failure?)
      && (r.Failure? ==> list.State() == old(list.State()))
      && (r.Success? ==>
            spec.Success? && r.value == Replaced(itemId, newFile.name)
            && list.State() == spec.value.store)
  {
    if itemId !in list.items {
      return Failure(NotFound);
    }
    var done := ReplaceWith(list, itemId, newFile);
    r := Success(done);
  }
}
