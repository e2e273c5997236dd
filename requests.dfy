/** The certificate service operations as the separate requests they send
    to the list, one after the other: the record's `update` or `add`, one
    `delete` per attachment, one `add` per file, one `delete` per record.
    Nothing rolls back, so an operation that throws part-way leaves the
    requests it completed in place. Running every request is the operation
    as its specification states it, and running the operation again after
    a failure reaches that same list. */
module CertificadosRequests {
  import opened Text
  import opened CertStore
  import opened CertificadosSpec

  /** A request of the list client that changes the list. Queries and
      attachment listings change nothing and do not appear. */
  datatype Request =
    | UpdateItem(id: nat, p: Payload)
    | AddItem(p: Payload)
    | DeleteItem(id: nat)
    | DeleteFile(id: nat, name: string)
    | AddFile(id: nat, name: string)

  /** What one request does; a request on an `Id` the list does not hold
      changes nothing. */
  function Perform(s: Store, q: Request): Store {
    match q
    case UpdateItem(id, p) =>
      if id in s.items then s.(items := s.items[id := Updated(s.items[id], p)]) else s
    case AddItem(p) => Store(s.items[s.nextId := Created(p)], s.nextId + 1)
    case DeleteItem(id) => s.(items := s.items - {id})
    case DeleteFile(id, name) =>
      if id in s.items
      then s.(items := s.items[id := s.items[id].(attachments := Without(s.items[id].attachments, name))])
      else s
    case AddFile(id, name) =>
      if id in s.items
      then s.(items := s.items[id := s.items[id].(attachments := s.items[id].attachments + [name])])
      else s
  }

  /** The requests awaited in order. */
  function PerformAll(s: Store, qs: seq<Request>): Store
    decreases |qs|
  {
    if qs == [] then s else PerformAll(Perform(s, qs[0]), qs[1..])
  }

  lemma {:induction false} PerformAllAppend(s: Store, a: seq<Request>, b: seq<Request>)
    ensures PerformAll(s, a + b) == PerformAll(PerformAll(s, a), b)
    decreases |a|
  {
    if a == [] {
      assert a + b == b;
    } else {
      assert (a + b)[1..] == a[1..] + b;
      PerformAllAppend(Perform(s, a[0]), a[1..], b);
    }
  }

  /** One attachment `delete` by name per listed attachment, in order. */
  function DeleteFiles(id: nat, names: seq<string>): seq<Request> {
    seq(|names|, i requires 0 <= i < |names| => DeleteFile(id, names[i]))
  }

  /** One attachment `add` per file, in order. */
  function AddFiles(id: nat, names: seq<string>): seq<Request> {
    seq(|names|, i requires 0 <= i < |names| => AddFile(id, names[i]))
  }

  /** One `delete` per `Id`, in the order given. */
  function DeleteItems(ids: seq<nat>): seq<Request> {
    seq(|ids|, i requires 0 <= i < |ids| => DeleteItem(ids[i]))
  }

  /** `s` after deleting each of `names` by name in turn. */
  function WithoutAll(s: seq<string>, names: seq<string>): (r: seq<string>)
    ensures forall x :: x in r <==> x in s && x !in names
    decreases |names|
  {
    if names == [] then s else WithoutAll(Without(s, names[0]), names[1..])
  }

  /** Deleting every listed name leaves no attachment. */
  lemma WithoutAllOfItself(s: seq<string>)
    ensures WithoutAll(s, s) == []
  {
    HeadIsMember(WithoutAll(s, s));
  }

  lemma HeadIsMember(r: seq<string>)
    ensures |r| > 0 ==> r[0] in r
  {
  }

  /** `st` with the attachments of `id` set to `names`. */
  function SetAttachments(st: Store, id: nat, names: seq<string>): Store
    requires id in st.items
  {
    st.(items := st.items[id := st.items[id].(attachments := names)])
  }

  /** Requests on the files of one record change those files only. */
  predicate OnFilesOf(id: nat, qs: seq<Request>) {
    forall i :: 0 <= i < |qs| ==> (qs[i].DeleteFile? || qs[i].AddFile?) && qs[i].id == id
  }

  lemma {:induction false} FileRequestsTouchOnlyFiles(st: Store, id: nat, qs: seq<Request>)
    requires id in st.items && OnFilesOf(id, qs)
    ensures var r := PerformAll(st, qs);
      id in r.items && r == SetAttachments(st, id, r.items[id].attachments)
    decreases |qs|
  {
    if qs != [] {
      var s1 := Perform(st, qs[0]);
      assert s1 == SetAttachments(st, id, s1.items[id].attachments);
      FileRequestsTouchOnlyFiles(s1, id, qs[1..]);
    }
  }

  lemma {:induction false} DeleteFilesEffect(st: Store, id: nat, names: seq<string>)
    requires id in st.items
    ensures PerformAll(st, DeleteFiles(id, names))
      == SetAttachments(st, id, WithoutAll(st.items[id].attachments, names))
    decreases |names|
  {
    if names != [] {
      var s1 := Perform(st, DeleteFile(id, names[0]));
      assert DeleteFiles(id, names)[1..] == DeleteFiles(id, names[1..]);
      DeleteFilesEffect(s1, id, names[1..]);
    }
  }

  lemma {:induction false} AddFilesEffect(st: Store, id: nat, names: seq<string>)
    requires id in st.items
    ensures PerformAll(st, AddFiles(id, names))
      == SetAttachments(st, id, st.items[id].attachments + names)
    decreases |names|
  {
    if names == [] {
      assert st.items[id].attachments + names == st.items[id].attachments;
      assert SetAttachments(st, id, st.items[id].attachments) == st;
    } else {
      var s1 := Perform(st, AddFile(id, names[0]));
      assert AddFiles(id, names)[1..] == AddFiles(id, names[1..]);
      AddFilesEffect(s1, id, names[1..]);
      assert st.items[id].attachments + [names[0]] + names[1..] == st.items[id].attachments + names;
    }
  }

  /** Deleting a list of files and then adding others is a run of file
      requests on that record. */
  lemma FilesAreFileRequests(id: nat, del: seq<string>, add: seq<string>)
    ensures OnFilesOf(id, DeleteFiles(id, del) + AddFiles(id, add))
  {
    var qs := DeleteFiles(id, del) + AddFiles(id, add);
    forall i | 0 <= i < |qs|
      ensures (qs[i].DeleteFile? || qs[i].AddFile?) && qs[i].id == id
    {
      if i >= |del| {
        assert qs[i] == AddFiles(id, add)[i - |del|];
      }
    }
  }

  // ---------------------------------------------------------------------------
  // addOrUpdateCertificado
  // ---------------------------------------------------------------------------

  /** The record the upsert writes: the latest match, or the next `Id`. */
  ghost function UpsertTarget(s: Store, c: Certificado): nat {
    var ms := UpsertMatches(s, c);
    if ms != {} then MaxOf(ms) else s.nextId
  }

  /** The attachments the upsert lists after writing the record: the
      updated record's, or none on a new one. */
  ghost function UpsertListed(s: Store, c: Certificado): seq<string> {
    var ms := UpsertMatches(s, c);
    if ms != {} then s.items[MaxOf(ms)].attachments else []
  }

  /** The requests of `addOrUpdateCertificado`: update or add the record;
      then, with files, delete each listed attachment and add each file. */
  ghost function UpsertRequests(s: Store, c: Certificado): seq<Request> {
    var id := UpsertTarget(s, c);
    var write := if UpsertMatches(s, c) != {} then UpdateItem(id, PayloadOf(c)) else AddItem(PayloadOf(c));
    [write] + (if |c.adjuntos| > 0 then DeleteFiles(id, UpsertListed(s, c)) + AddFiles(id, Names(c.adjuntos)) else [])
  }

  /** The list once the record is written and before any file request. */
  ghost function UpsertWritten(s: Store, c: Certificado): Store {
    Perform(s, UpsertRequests(s, c)[0])
  }

  lemma UpsertWrittenShape(s: Store, c: Certificado)
    ensures var w, id := UpsertWritten(s, c), UpsertTarget(s, c);
      && id in w.items && w.items[id].attachments == UpsertListed(s, c)
      && Upsert(s, c).id == id
      && Upsert(s, c).store == (if |c.adjuntos| > 0 then SetAttachments(w, id, Names(c.adjuntos)) else w)
  {
  }

  /** Every request of the upsert, completed, is the upsert of the
      specification. */
  lemma UpsertRequestsComplete(s: Store, c: Certificado)
    ensures PerformAll(s, UpsertRequests(s, c)) == Upsert(s, c).store
  {
    var qs, id, w := UpsertRequests(s, c), UpsertTarget(s, c), UpsertWritten(s, c);
    UpsertWrittenShape(s, c);
    assert PerformAll(s, qs) == PerformAll(w, qs[1..]);
    if |c.adjuntos| > 0 {
      var del, add := DeleteFiles(id, UpsertListed(s, c)), AddFiles(id, Names(c.adjuntos));
      assert qs[1..] == del + add;
      PerformAllAppend(w, del, add);
      DeleteFilesEffect(w, id, UpsertListed(s, c));
      WithoutAllOfItself(UpsertListed(s, c));
      var w1 := SetAttachments(w, id, []);
      AddFilesEffect(w1, id, Names(c.adjuntos));
      assert [] + Names(c.adjuntos) == Names(c.adjuntos);
    } else {
      assert qs[1..] == [];
    }
  }

  /** When a file upload fails, after every listed attachment is deleted,
      the record is written with all its columns and has no attachment at
      all: an earlier file is gone and the new one is missing. */
  lemma UpsertFailureLeavesNoFile(s: Store, c: Certificado)
    requires |c.adjuntos| > 0
    ensures var k := 1 + |UpsertListed(s, c)|;
      var id := UpsertTarget(s, c);
      k < |UpsertRequests(s, c)| && id in Upsert(s, c).store.items
      && PerformAll(s, UpsertRequests(s, c)[..k]) == SetAttachments(Upsert(s, c).store, id, [])
  {
    var qs, id, w := UpsertRequests(s, c), UpsertTarget(s, c), UpsertWritten(s, c);
    var del := DeleteFiles(id, UpsertListed(s, c));
    var k := 1 + |UpsertListed(s, c)|;
    UpsertWrittenShape(s, c);
    assert qs[..k] == [qs[0]] + del;
    assert PerformAll(s, qs[..k]) == PerformAll(w, del);
    DeleteFilesEffect(w, id, UpsertListed(s, c));
    WithoutAllOfItself(UpsertListed(s, c));
  }

  /** The upsert does not read the attachments of its target when it is
      given files: whatever the target holds is replaced. */
  lemma UpsertIgnoresTargetFiles(t: Store, c: Certificado, names: seq<string>)
    requires ValidStore(t) && |c.adjuntos| > 0 && Upsert(t, c).id in t.items
    ensures var id := Upsert(t, c).id;
      Upsert(SetAttachments(t, id, names), c) == Upsert(t, c)
  {
    var id := Upsert(t, c).id;
    var t2 := SetAttachments(t, id, names);
    assert UpsertMatches(t2, c) == UpsertMatches(t, c);
    UpsertCreatesOneFresh(t, c);
  }

  /** A fresh `Id` is never in a valid list. */
  lemma UpsertCreatesOneFresh(t: Store, c: Certificado)
    requires ValidStore(t) && Upsert(t, c).id in t.items
    ensures UpsertMatches(t, c) != {}
  {
  }

  /** Re-running an upsert that threw after any number of its requests
      leaves the list as one complete upsert would, for the non-empty kinds
      the form sends. */
  lemma UpsertRetryRepairs(s: Store, c: Certificado, k: nat)
    requires ValidStore(s) && Truthy(c.certificado) && k <= |UpsertRequests(s, c)|
    ensures Upsert(PerformAll(s, UpsertRequests(s, c)[..k]), c) == Upsert(s, c)
  {
    var qs, id, w := UpsertRequests(s, c), UpsertTarget(s, c), UpsertWritten(s, c);
    UpsertIdempotent(s, c);
    if k == 0 {
      assert qs[..k] == [];
    } else {
      UpsertWrittenShape(s, c);
      assert qs[..k] == [qs[0]] + qs[1..k];
      PerformAllAppend(s, [qs[0]], qs[1..k]);
      assert PerformAll(s, [qs[0]]) == w;
      if |c.adjuntos| == 0 {
        assert qs[1..k] == [];
      } else {
        var u := Upsert(s, c).store;
        FilesAreFileRequests(id, UpsertListed(s, c), Names(c.adjuntos));
        assert OnFilesOf(id, qs[1..k]);
        FileRequestsTouchOnlyFiles(w, id, qs[1..k]);
        var partial := PerformAll(w, qs[1..k]);
        assert partial == SetAttachments(u, id, partial.items[id].attachments);
        UpsertFrame(s, c);
        UpsertAgainKeepsTarget(s, c);
        UpsertIgnoresTargetFiles(u, c, partial.items[id].attachments);
      }
    }
  }

  // ---------------------------------------------------------------------------
  // replaceAdjuntoById, replaceCertificadoAdjunto
  // ---------------------------------------------------------------------------

  /** The requests of `replaceAdjuntoById`: delete each attachment, then
      add the file; none for an unknown `Id`, whose first request fails. */
  function ReplaceByIdRequests(s: Store, id: nat, file: FileRef): seq<Request> {
    if id in s.items then DeleteFiles(id, s.items[id].attachments) + AddFiles(id, [file.name]) else []
  }

  /** The requests of `replaceCertificadoAdjunto`: those of the replacement
      by `Id` on the latest match; none when nothing matches. */
  ghost function ReplaceRequests(s: Store, placa: string, tipo: string, file: FileRef): seq<Request> {
    var ms := ReplaceMatches(s, placa, tipo);
    if ms == {} then [] else ReplaceByIdRequests(s, MaxOf(ms), file)
  }

  /** Every request of the replacement, completed, is the replacement of
      the specification. */
  lemma ReplaceByIdRequestsComplete(s: Store, id: nat, file: FileRef)
    requires id in s.items
    ensures PerformAll(s, ReplaceByIdRequests(s, id, file)) == ReplaceById(s, id, file).value.store
  {
    var del, add := DeleteFiles(id, s.items[id].attachments), AddFiles(id, [file.name]);
    PerformAllAppend(s, del, add);
    DeleteFilesEffect(s, id, s.items[id].attachments);
    WithoutAllOfItself(s.items[id].attachments);
    AddFilesEffect(SetAttachments(s, id, []), id, [file.name]);
    assert [] + [file.name] == [file.name];
  }

  /** When the upload of the new file fails, the record is left with no
      attachment and everything else as it was. */
  lemma ReplaceFailureLeavesNoFile(s: Store, id: nat, file: FileRef)
    requires id in s.items
    ensures var k := |s.items[id].attachments|;
      k < |ReplaceByIdRequests(s, id, file)|
      && PerformAll(s, ReplaceByIdRequests(s, id, file)[..k]) == SetAttachments(s, id, [])
  {
    var qs, del := ReplaceByIdRequests(s, id, file), DeleteFiles(id, s.items[id].attachments);
    assert qs[..|s.items[id].attachments|] == del;
    DeleteFilesEffect(s, id, s.items[id].attachments);
    WithoutAllOfItself(s.items[id].attachments);
  }

  /** What a replacement that threw after any number of its requests left
      behind differs from the list before only in that record's files. */
  lemma ReplacePartial(s: Store, id: nat, file: FileRef, k: nat)
    requires id in s.items && k <= |ReplaceByIdRequests(s, id, file)|
    ensures var r := PerformAll(s, ReplaceByIdRequests(s, id, file)[..k]);
      id in r.items && r == SetAttachments(s, id, r.items[id].attachments)
  {
    var qs := ReplaceByIdRequests(s, id, file);
    FilesAreFileRequests(id, s.items[id].attachments, [file.name]);
    assert OnFilesOf(id, qs[..k]);
    FileRequestsTouchOnlyFiles(s, id, qs[..k]);
  }

  /** Re-running a replacement by `Id` that threw part-way gives the list
      of one complete replacement. */
  lemma ReplaceByIdRetryRepairs(s: Store, id: nat, file: FileRef, k: nat)
    requires k <= |ReplaceByIdRequests(s, id, file)|
    ensures ReplaceById(PerformAll(s, ReplaceByIdRequests(s, id, file)[..k]), id, file)
      == ReplaceById(s, id, file)
  {
    if id in s.items {
      ReplacePartial(s, id, file, k);
      var r := PerformAll(s, ReplaceByIdRequests(s, id, file)[..k]);
      assert WithOnlyAttachment(r, id, file.name) == WithOnlyAttachment(s, id, file.name);
    } else {
      assert ReplaceByIdRequests(s, id, file)[..k] == [];
    }
  }

  /** The same for the replacement by kind: the partial state still has
      the same latest match, whose files the retry replaces. */
  lemma ReplaceRetryRepairs(s: Store, placa: string, tipo: string, file: FileRef, k: nat)
    requires k <= |ReplaceRequests(s, placa, tipo, file)|
    ensures ReplaceByKind(PerformAll(s, ReplaceRequests(s, placa, tipo, file)[..k]), placa, tipo, file)
      == ReplaceByKind(s, placa, tipo, file)
  {
    var ms := ReplaceMatches(s, placa, tipo);
    if ms == {} {
      assert ReplaceRequests(s, placa, tipo, file)[..k] == [];
    } else {
      var id := MaxOf(ms);
      ReplacePartial(s, id, file, k);
      var r := PerformAll(s, ReplaceRequests(s, placa, tipo, file)[..k]);
      assert ReplaceMatches(r, placa, tipo) == ms;
      ReplaceByIdRetryRepairs(s, id, file, k);
    }
  }

  // ---------------------------------------------------------------------------
  // deleteCertificadosPorPlaca
  // ---------------------------------------------------------------------------

  /** The elements of a set in ascending order. */
  ghost function Ascending(ids: set<nat>): (r: seq<nat>)
    ensures forall x :: x in r <==> x in ids
    ensures StrictlyAscending(r)
    decreases |ids|
  {
    if ids == {} then []
    else
      var m := MaxOf(ids);
      var rest := Ascending(ids - {m});
      AscendingAppend(rest, m);
      rest + [m]
  }

  lemma AscendingAppend(r: seq<nat>, m: nat)
    requires StrictlyAscending(r) && forall i :: 0 <= i < |r| ==> r[i] < m
    ensures StrictlyAscending(r + [m])
  {
  }

  /** The requests of `deleteCertificadosPorPlaca`: one `delete` per record
      of the trimmed plate, in the order the query returns them, taken to
      be ascending; none for a blank plate. */
  ghost function DeleteRequests(s: Store, placa: string): seq<Request> {
    var p := Trim(placa);
    if p == "" then [] else DeleteItems(Ascending(PlateIds(s, p)))
  }

  lemma {:induction false} DeleteItemsEffect(s: Store, ids: seq<nat>)
    ensures PerformAll(s, DeleteItems(ids)) == s.(items := s.items - (set x | x in ids))
    decreases |ids|
  {
    if ids == [] {
      assert s.items - (set x | x in ids) == s.items;
    } else {
      assert DeleteItems(ids)[1..] == DeleteItems(ids[1..]);
      DeleteItemsEffect(Perform(s, DeleteItem(ids[0])), ids[1..]);
      assert (s.items - {ids[0]}) - (set x | x in ids[1..]) == s.items - (set x | x in ids);
    }
  }

  /** Deleting any of the plate's records before the whole deletion changes
      nothing about its result; this covers a deletion cut short after any
      of its requests, in whatever order the batch ran them. */
  lemma DeleteRetryRepairs(s: Store, placa: string, gone: set<nat>)
    requires gone <= PlateIds(s, Trim(placa)) && (Trim(placa) == "" ==> gone == {})
    ensures DeleteForPlate(s.(items := s.items - gone), placa) == DeleteForPlate(s, placa)
  {
    var p := Trim(placa);
    if p == "" {
      assert s.items - gone == s.items;
    } else {
      var d2, d := DeleteForPlate(s.(items := s.items - gone), placa), DeleteForPlate(s, placa);
      forall id
        ensures id in d2.items <==> id in d.items
      {
        if id in gone {
          assert id in PlateIds(s, p);
        }
      }
      assert d2.items == d.items;
    }
  }

  /** Every request of the deletion, completed, is the deletion of the
      specification; and stopping after any number of them removed only
      records of the plate, so a retry finishes the job. */
  lemma DeleteRequestsPartial(s: Store, placa: string, k: nat)
    requires k <= |DeleteRequests(s, placa)|
    ensures PerformAll(s, DeleteRequests(s, placa)) == DeleteForPlate(s, placa)
    ensures var r := PerformAll(s, DeleteRequests(s, placa)[..k]);
      && r.nextId == s.nextId
      && (forall id :: id in r.items ==> id in s.items && r.items[id] == s.items[id])
      && (forall id :: id in s.items && id !in r.items ==> s.items[id].title == Trim(placa))
      && DeleteForPlate(r, placa) == DeleteForPlate(s, placa)
  {
    var p := Trim(placa);
    var qs := DeleteRequests(s, placa);
    if p == "" {
      assert qs[..k] == [];
    } else {
      var ids := Ascending(PlateIds(s, p));
      DeleteItemsEffect(s, ids);
      assert PerformAll(s, qs).items == DeleteForPlate(s, placa).items;
      assert qs[..k] == DeleteItems(ids[..k]);
      DeleteItemsEffect(s, ids[..k]);
      var gone := set x | x in ids[..k];
      assert gone <= PlateIds(s, p);
      DeleteRetryRepairs(s, placa, gone);
    }
  }
}
