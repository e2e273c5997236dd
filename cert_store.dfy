/** The certificates list of the remote store, abstracted as an in-memory
    table: records keyed by a server-assigned `Id`, each with its columns and
    its attachment file names. The operations are the ones the service uses
    through the list client: filtered and ordered `select`, `add`, `update`,
    `delete`, and listing, deleting and adding attachments. */
module CertStore {
  import opened Wrappers
  import opened Dates
  import opened OData

  /** A browser `File`; the model keeps its name only. */
  datatype FileRef = FileRef(name: string)

  /** The `Anio` column holds text or a number. */
  datatype AnioValue = AnioText(text: string) | AnioNumber(n: int)

  /** A record of the certificates list. `title` is the plate. */
  datatype CertRecord = CertRecord(
    title: string,
    certificado: Option<string>,
    emision: Option<Date>,
    caducidad: Option<Date>,
    anio: Option<AnioValue>,
    resolucion: Option<Date>,
    expediente: Option<string>,
    attachments: seq<string>)

  /** The column values sent with `add` or `update`: the title always, every
      other column only when present. */
  datatype Payload = Payload(
    title: string,
    certificado: Option<string>,
    emision: Option<Date>,
    caducidad: Option<Date>,
    anio: Option<AnioValue>,
    resolucion: Option<Date>,
    expediente: Option<string>)

  function Merge<T>(current: Option<T>, sent: Option<T>): (r: Option<T>)
    ensures sent.Some? ==> r == sent
    ensures sent.None? ==> r == current
  {
    if sent.Some? then sent else current
  }

  /** `update(payload)`: the columns present in the payload are overwritten,
      the others keep their value. */
  function Updated(r: CertRecord, p: Payload): CertRecord {
    CertRecord(p.title, Merge(r.certificado, p.certificado), Merge(r.emision, p.emision),
      Merge(r.caducidad, p.caducidad), Merge(r.anio, p.anio), Merge(r.resolucion, p.resolucion),
      Merge(r.expediente, p.expediente), r.attachments)
  }

  /** `add(payload)`: a new record with no attachments; absent columns are
      empty. */
  function Created(p: Payload): CertRecord {
    CertRecord(p.title, p.certificado, p.emision, p.caducidad, p.anio, p.resolucion,
      p.expediente, [])
  }

  /** The `$filter` expressions the service sends: equality clauses on
      `Title` and `Certificado`. Each string is the body of a quoted literal,
      as written into the filter text. */
  datatype Filter =
    | TitleIs(title: string)
    | TitleAndKindIs(title: string, kind: string)
    | TitleAndKindIn(title: string, kind1: string, kind2: string)

  /** `Column eq 'lit'`: the column holds the value the literal denotes. A
      null column equals no literal. */
  predicate LiteralDenotes(lit: string, v: Option<string>) {
    v.Some? && Unescape(lit) == Some(v.value)
  }

  predicate Satisfies(r: CertRecord, f: Filter) {
    match f
    case TitleIs(t) => LiteralDenotes(t, Some(r.title))
    case TitleAndKindIs(t, k) => LiteralDenotes(t, Some(r.title)) && LiteralDenotes(k, r.certificado)
    case TitleAndKindIn(t, k1, k2) =>
      LiteralDenotes(t, Some(r.title))
      && (LiteralDenotes(k1, r.certificado) || LiteralDenotes(k2, r.certificado))
  }

  /** The whole list as a value: its records and the next `Id` the server
      will assign. Identifiers only grow, so a larger `Id` is a later
      record. */
  datatype Store = Store(items: map<nat, CertRecord>, nextId: nat)

  ghost predicate ValidStore(s: Store) {
    1 <= s.nextId && forall id :: id in s.items ==> 1 <= id < s.nextId
  }

  predicate StrictlyDescending(ids: seq<nat>) {
    forall i, j :: 0 <= i < j < |ids| ==> ids[i] > ids[j]
  }

  predicate StrictlyAscending(ids: seq<nat>) {
    forall i, j :: 0 <= i < j < |ids| ==> ids[i] < ids[j]
  }

  /** `s` without every occurrence of `name`. */
  function Without(s: seq<string>, name: string): (r: seq<string>)
    ensures forall x :: x in r <==> x in s && x != name
  {
    if s == [] then []
    else (if s[0] == name then [] else [s[0]]) + Without(s[1..], name)
  }

  class CertificateList {
    var items: map<nat, CertRecord>
    var nextId: nat

    function State(): Store
      reads this
    {
      Store(items, nextId)
    }

    ghost predicate Valid()
      reads this
    {
      ValidStore(State())
    }

    constructor ()
      ensures Valid() && items == map[] && nextId == 1
    {
      items := map[];
      nextId := 1;
    }

    /** `items.select("Id").filter(f)` with `.orderBy("Id", false)` when
        `descending`, else the store's default ascending order: the `Id`s of
        exactly the records that satisfy the filter. */
    method Query(f: Filter, descending: bool) returns (ids: seq<nat>)
      requires Valid()
      ensures descending ==> StrictlyDescending(ids)
      ensures !descending ==> StrictlyAscending(ids)
      ensures forall id :: id in ids <==> id in items && Satisfies(items[id], f)
    {
      ids := [];
      if descending {
        var k := nextId;
        while k > 1
          invariant 1 <= k <= nextId
          invariant StrictlyDescending(ids)
          invariant forall i :: 0 <= i < |ids| ==> ids[i] >= k
          invariant forall id :: id in ids <==> k <= id && id in items && Satisfies(items[id], f)
        {
          k := k - 1;
          if k in items && Satisfies(items[k], f) {
            ids := ids + [k];
          }
        }
      } else {
        var k := 1;
        while k < nextId
          invariant 1 <= k <= nextId
          invariant StrictlyAscending(ids)
          invariant forall i :: 0 <= i < |ids| ==> ids[i] < k
          invariant forall id :: id in ids <==> id < k && id in items && Satisfies(items[id], f)
        {
          if k in items && Satisfies(items[k], f) {
            ids := ids + [k];
          }
          k := k + 1;
        }
      }
    }

    /** `items.add(p)`: the new record gets the next `Id`. */
    method Add(p: Payload) returns (id: nat)
      requires Valid()
      modifies this
      ensures Valid()
      ensures id == old(nextId) && nextId == old(nextId) + 1
      ensures items == old(items)[id := Created(p)]
    {
      id := nextId;
      items := items[id := Created(p)];
      nextId := nextId + 1;
    }

    /** `items.getById(id).update(p)` */
    method Update(id: nat, p: Payload)
      requires Valid() && id in items
      modifies this
      ensures Valid() && nextId == old(nextId)
      ensures items == old(items)[id := Updated(old(items)[id], p)]
    {
      items := items[id := Updated(items[id], p)];
    }

    /** `items.getById(id).delete()` */
    method Delete(id: nat)
      requires Valid() && id in items
      modifies this
      ensures Valid() && nextId == old(nextId)
      ensures items == old(items) - {id}
    {
      items := items - {id};
    }

    /** `item.attachmentFiles()`: the names of the record's attachments. */
    method AttachmentNames(id: nat) returns (names: seq<string>)
      requires id in items
      ensures names == items[id].attachments
    {
      names := items[id].attachments;
    }

    /** `item.attachmentFiles.getByName(name).delete()` */
    method DeleteAttachment(id: nat, name: string)
      requires Valid() && id in items
      modifies this
      ensures Valid() && nextId == old(nextId)
      ensures items == old(items)[id := old(items)[id].(attachments := Without(old(items)[id].attachments, name))]
    {
      items := items[id := items[id].(attachments := Without(items[id].attachments, name))];
    }

    /** `item.attachmentFiles.add(name, file)` */
    method AddAttachment(id: nat, name: string)
      requires Valid() && id in items
      modifies this
      ensures Valid() && nextId == old(nextId)
      ensures items == old(items)[id := old(items)[id].(attachments := old(items)[id].attachments + [name])]
    {
      items := items[id := items[id].(attachments := items[id].attachments + [name])];
    }
  }
}
