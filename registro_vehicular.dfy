/** The registration form's orchestration: which remote calls a save makes
    for each action, in which order, and what the form's state is after
    the save succeeds or after one of its calls fails; the reset; the
    guarded reload of the vehicle grid. The remote services are opaque:
    every call the form makes is appended to `log`, and a set of
    `rejected` calls stands for the calls the remote side answers with an
    error. */
module RegistroVehicular {
  import opened Wrappers
  import opened Text
  import opened Dates
  import opened CertStore
  import opened CertificadosSpec
  import opened CertificadosRequests
  import opened Vehiculos
  import opened Requisitos
  import opened Documentacion

  datatype Accion = Crear | Actualizar | Baja

  /** A replacement file chosen in the certificates grid. */
  datatype StagedFile = StagedFile(tipo: string, file: FileRef)

  /** A call into the vehicle or certificate services. */
  datatype Call =
    | UpsertVehiculo(v: Vehiculo)
    | DeleteVehiculoByPlaca(placa: string)
    | AddOrUpdateCertificado(c: Certificado)
    | ReplaceCertificadoAdjunto(placa: string, tipo: string, file: FileRef)
    | DeleteCertificadosPorPlaca(placa: string)
    | LoadVehiculos(empresa: Option<string>)

  /** `!!Proveedor && !(Distribuidor || Coordinador)`: only a supplier
      that is neither distributor nor coordinator sees its own vehicles
      alone. */
  predicate FiltrarProveedorEfectivo(proveedor: Option<bool>, distribuidor: Option<bool>,
                                     coordinador: Option<bool>) {
    IsTrue(proveedor) && !(IsTrue(distribuidor) || IsTrue(coordinador))
  }

  // ---------------------------------------------------------------------------
  // Awaited calls that may throw
  // ---------------------------------------------------------------------------

  /** The calls that completed, and whether one of them threw. */
  datatype Run = Run(calls: seq<Call>, threw: bool)

  /** Awaiting `cs` one after the other: the calls complete up to the first
      rejected one, which throws and ends the sequence. */
  function Attempt(cs: seq<Call>, rejected: set<Call>): Run {
    if cs == [] then Run([], false)
    else if cs[0] in rejected then Run([], true)
    else
      var r := Attempt(cs[1..], rejected);
      Run([cs[0]] + r.calls, r.threw)
  }

  /** The completed calls are the prefix of `cs` before its first
      rejected call; the sequence threw exactly when there is one. */
  lemma {:induction false} AttemptSpec(cs: seq<Call>, rejected: set<Call>)
    ensures var r := Attempt(cs, rejected);
      && |r.calls| <= |cs| && r.calls == cs[..|r.calls|]
      && (forall i :: 0 <= i < |r.calls| ==> r.calls[i] !in rejected)
      && (r.threw ==> |r.calls| < |cs| && cs[|r.calls|] in rejected)
      && (!r.threw ==> r.calls == cs)
  {
    if cs != [] && cs[0] !in rejected {
      AttemptSpec(cs[1..], rejected);
    }
  }

  /** Awaiting `a` then `b` is awaiting `a + b`: once `a` throws, `b` is
      never started. */
  lemma {:induction false} AttemptAppend(a: seq<Call>, b: seq<Call>, rejected: set<Call>)
    ensures Attempt(a + b, rejected) ==
      if Attempt(a, rejected).threw then Attempt(a, rejected)
      else Run(a + Attempt(b, rejected).calls, Attempt(b, rejected).threw)
  {
    if a == [] {
      assert a + b == b;
    } else {
      assert (a + b)[0] == a[0];
      assert (a + b)[1..] == a[1..] + b;
      AttemptAppend(a[1..], b, rejected);
      if a[0] !in rejected && !Attempt(a[1..], rejected).threw {
        assert [a[0]] + (a[1..] + Attempt(b, rejected).calls) == a + Attempt(b, rejected).calls;
      }
    }
  }

  /** Two awaited calls. */
  lemma AttemptPair(a: Call, b: Call, rejected: set<Call>)
    ensures Attempt([a, b], rejected) ==
      if a in rejected then Run([], true)
      else if b in rejected then Run([a], true)
      else Run([a, b], false)
  {
    assert [a, b][1..] == [b];
    assert [b][1..] == [];
    assert Attempt([], rejected) == Run([], false);
    assert Attempt([b], rejected) == if b in rejected then Run([], true) else Run([b], false);
    assert [a] + [b] == [a, b];
  }

  lemma AppendAssoc(a: seq<Call>, b: seq<Call>, c: seq<Call>)
    ensures (a + b) + c == a + (b + c)
  {
  }

  /** A first call followed by the rest. */
  lemma UpsertFirst(c: Call, rest: seq<Call>, rejected: set<Call>)
    ensures Attempt([c] + rest, rejected) ==
      if c in rejected then Run([], true)
      else Run([c] + Attempt(rest, rejected).calls, Attempt(rest, rejected).threw)
  {
    assert ([c] + rest)[1..] == rest;
  }

  /** With nothing rejected every call completes. */
  lemma NothingRejectedCompletes(cs: seq<Call>)
    ensures Attempt(cs, {}) == Run(cs, false)
  {
  }

  /** `cond ? [c] : []` */
  function When(cond: bool, c: Call): (r: seq<Call>)
    ensures cond ==> r == [c]
    ensures !cond ==> r == []
  {
    if cond then [c] else []
  }

  // ---------------------------------------------------------------------------
  // guardarCertificados
  // ---------------------------------------------------------------------------

  /** `f ? [f] : []` */
  function FilesOf(f: Option<FileRef>): (r: seq<FileRef>)
    ensures |r| <= 1 && (f.Some? ==> r == [f.value]) && (f.None? ==> r == [])
  {
    if f.Some? then [f.value] else []
  }

  /** The upsert of one certificate of the plate: `caducidad` is never
      sent; `toDateOnly` keeps the calendar date. */
  function Write(placa: string, kind: string, emision: Option<Date>, anio: Option<AnioValue>,
                 resolucion: Option<Date>, expediente: Option<string>, file: Option<FileRef>): (r: Call)
    ensures r.AddOrUpdateCertificado? && r.c.placa == placa && r.c.certificado == Some(kind)
    ensures r.c.caducidad.None? && |r.c.adjuntos| <= 1
  {
    AddOrUpdateCertificado(Certificado(placa, Some(kind), emision, None, anio, resolucion,
      expediente, FilesOf(file)))
  }

  function PropWrite(p: string, d: DocState): Call {
    Write(p, "TARJETA_PROPIEDAD", None, None, None, None, d.propFile)
  }

  function ResBonificacionWrite(p: string, d: DocState): Call {
    Write(p, "RESOLUCION_BONIFICACION", None, None, None, None, d.resBonificacionFile)
  }

  function CertBonificacionWrite(p: string, d: DocState): Call {
    Write(p, "CERTIFICADO_BONIFICACION", d.certBonificacionDate, None, None, None, d.certBonificaFile)
  }

  /** The year is the trimmed text, sent even when that is empty. */
  function RevisionTecnicaWrite(p: string, d: DocState): Call {
    Write(p, "REVISION_TECNICA", d.revTecDate, Some(AnioText(Trim(d.revTecText))), None, None, d.revTecFile)
  }

  /** The date goes to `resolucion`, the trimmed text to `expediente`. */
  function SanipesWrite(p: string, d: DocState): Call {
    Write(p, "SANIPES", None, None, d.SanipesDate, Some(Trim(d.SanipesText)), d.sanipesFile)
  }

  function TermokingWrite(p: string, d: DocState): Call {
    Write(p, "TERMOKING", d.termokingDate, None, None, None, d.termokingFile)
  }

  function LimpiezaWrite(p: string, d: DocState): Call {
    Write(p, "LIMPIEZA_DESINFECCION", d.limpiezaDate, None, None, None, d.limpiezaFile)
  }

  /** A call made only when its condition holds. */
  datatype Slot = Slot(on: bool, call: Call)

  /** The calls of the slots that are on, in order. */
  function Selected(slots: seq<Slot>): (r: seq<Call>)
    ensures |r| <= |slots|
  {
    if slots == [] then []
    else
      var last := slots[|slots| - 1];
      var r := Selected(slots[..|slots| - 1]);
      if last.on then r + [last.call] else r
  }

  /** Every selected call comes from a slot that is on, and none is
      selected exactly when every slot is off. */
  lemma {:induction false} SelectedSpec(slots: seq<Slot>)
    ensures forall c :: c in Selected(slots) ==>
      exists i :: 0 <= i < |slots| && slots[i].on && slots[i].call == c
    ensures Selected(slots) == [] <==> forall i :: 0 <= i < |slots| ==> !slots[i].on
  {
    if slots != [] {
      var init := slots[..|slots| - 1];
      SelectedSpec(init);
      forall c | c in Selected(slots)
        ensures exists i :: 0 <= i < |slots| && slots[i].on && slots[i].call == c
      {
        if c in Selected(init) {
          var i :| 0 <= i < |init| && init[i].on && init[i].call == c;
          assert slots[i] == init[i];
        } else {
          assert slots[|slots| - 1].on && slots[|slots| - 1].call == c;
        }
      }
      if forall i :: 0 <= i < |slots| ==> !slots[i].on {
        assert forall i :: 0 <= i < |init| ==> init[i] == slots[i];
      }
    }
  }

  /** The call of every slot that is on is selected, right after the calls
      selected from the slots before it: the calls come out in slot order
      and none of an on slot is skipped. */
  lemma {:induction false} SelectedInOrder(slots: seq<Slot>)
    ensures forall i :: 0 <= i < |slots| && slots[i].on ==>
      Selected(slots[..i]) + [slots[i].call] <= Selected(slots)
  {
    if slots != [] {
      var n := |slots| - 1;
      var init := slots[..n];
      SelectedInOrder(init);
      forall i | 0 <= i < |slots| && slots[i].on
        ensures Selected(slots[..i]) + [slots[i].call] <= Selected(slots)
      {
        if i < n {
          assert slots[..i] == init[..i] && slots[i] == init[i];
          PrefixOfAppend(Selected(init[..i]) + [init[i].call], Selected(init),
            if slots[n].on then [slots[n].call] else []);
        } else {
          assert slots[..i] == init;
        }
      }
    }
  }

  lemma PrefixOfAppend<T>(a: seq<T>, b: seq<T>, c: seq<T>)
    requires a <= b
    ensures a <= b + c
  {
    assert (b + c)[..|a|] == b[..|a|];
  }

  lemma SelectedStep(slots: seq<Slot>, k: nat)
    requires k < |slots|
    ensures Selected(slots[..k + 1]) == Selected(slots[..k]) + When(slots[k].on, slots[k].call)
  {
    assert slots[..k + 1][..k] == slots[..k];
  }

  /** The seven certificates of a creation, each with the inputs that make
      it go out: a file for the two documents without a date; a date, a
      file or a non-empty text for the others. */
  function CertificateSlots(p: string, d: DocState): seq<Slot> {
    [ Slot(d.propFile.Some?, PropWrite(p, d)),
      Slot(d.resBonificacionFile.Some?, ResBonificacionWrite(p, d)),
      Slot(d.certBonificacionDate.Some? || d.certBonificaFile.Some?, CertBonificacionWrite(p, d)),
      Slot(d.revTecDate.Some? || d.revTecText != "" || d.revTecFile.Some?, RevisionTecnicaWrite(p, d)),
      Slot(d.SanipesDate.Some? || d.SanipesText != "" || d.sanipesFile.Some?, SanipesWrite(p, d)),
      Slot(d.termokingDate.Some? || d.termokingFile.Some?, TermokingWrite(p, d)),
      Slot(d.limpiezaDate.Some? || d.limpiezaFile.Some?, LimpiezaWrite(p, d)) ]
  }

  /** The certificates a creation saves for the trimmed plate `p`, in
      order; a blank plate saves none. */
  function CertificateWrites(p: string, d: DocState): seq<Call> {
    if p == "" then [] else Selected(CertificateSlots(p, d))
  }

  /** The kinds of certificate a creation can write, in the order it writes
      them. */
  const KindOrder: seq<string> := ["TARJETA_PROPIEDAD", "RESOLUCION_BONIFICACION",
    "CERTIFICADO_BONIFICACION", "REVISION_TECNICA", "SANIPES", "TERMOKING",
    "LIMPIEZA_DESINFECCION"]

  /** Something was entered for the certificate of that kind. */
  predicate Entered(d: DocState, kind: string) {
    match kind
    case "TARJETA_PROPIEDAD" => d.propFile.Some?
    case "RESOLUCION_BONIFICACION" => d.resBonificacionFile.Some?
    case "CERTIFICADO_BONIFICACION" => d.certBonificacionDate.Some? || d.certBonificaFile.Some?
    case "REVISION_TECNICA" => d.revTecDate.Some? || d.revTecText != "" || d.revTecFile.Some?
    case "SANIPES" => d.SanipesDate.Some? || d.SanipesText != "" || d.sanipesFile.Some?
    case "TERMOKING" => d.termokingDate.Some? || d.termokingFile.Some?
    case "LIMPIEZA_DESINFECCION" => d.limpiezaDate.Some? || d.limpiezaFile.Some?
    case _ => false
  }

  /** The kinds of `ks` for which something was entered, in order. */
  function EnteredKinds(d: DocState, ks: seq<string>): (r: seq<string>)
    ensures forall k :: k in r <==> k in ks && Entered(d, k)
  {
    if ks == [] then []
    else
      var n := |ks| - 1;
      assert forall k :: k in ks <==> k in ks[..n] || k == ks[n] by {
        assert ks == ks[..n] + [ks[n]];
      }
      EnteredKinds(d, ks[..n]) + (if Entered(d, ks[n]) then [ks[n]] else [])
  }

  /** The certificate kind a call writes; empty for any other call. */
  function KindOf(c: Call): string {
    if c.AddOrUpdateCertificado? then c.c.certificado.GetOr("") else ""
  }

  function KindsOf(cs: seq<Call>): seq<string> {
    seq(|cs|, i requires 0 <= i < |cs| => KindOf(cs[i]))
  }

  /** Slots that write the kinds `ks`, each on when something was entered
      for its kind, select exactly the entered kinds in order. */
  lemma {:induction false} SelectedKinds(slots: seq<Slot>, d: DocState, ks: seq<string>)
    requires |slots| == |ks|
    requires forall i :: 0 <= i < |ks| ==> slots[i].on == Entered(d, ks[i]) && KindOf(slots[i].call) == ks[i]
    ensures KindsOf(Selected(slots)) == EnteredKinds(d, ks)
  {
    if slots != [] {
      var n := |slots| - 1;
      SelectedKinds(slots[..n], d, ks[..n]);
      var r := Selected(slots[..n]);
      assert KindsOf(r + [slots[n].call]) == KindsOf(r) + [ks[n]];
    }
  }

  /** A creation writes the certificates in the fixed order of the kinds,
      skipping exactly those for which nothing was entered. */
  lemma CertificateWritesOrder(p: string, d: DocState)
    requires p != ""
    ensures KindsOf(CertificateWrites(p, d)) == EnteredKinds(d, KindOrder)
    ensures forall k :: k in KindOrder ==> (k in KindsOf(CertificateWrites(p, d)) <==> Entered(d, k))
  {
    var slots := CertificateSlots(p, d);
    forall i | 0 <= i < 7
      ensures slots[i].on == Entered(d, KindOrder[i]) && KindOf(slots[i].call) == KindOrder[i]
    {
    }
    SelectedKinds(slots, d, KindOrder);
  }

  /** No document input holds anything. */
  predicate NothingEntered(d: DocState) {
    d.propFile.None? && d.resBonificacionFile.None?
    && d.certBonificacionDate.None? && d.certBonificaFile.None?
    && d.revTecDate.None? && d.revTecText == "" && d.revTecFile.None?
    && d.SanipesDate.None? && d.SanipesText == "" && d.sanipesFile.None?
    && d.termokingDate.None? && d.termokingFile.None?
    && d.limpiezaDate.None? && d.limpiezaFile.None?
  }

  /** At most one upsert per kind, all of them for the plate, each with at
      most one file; none exactly when the plate is blank or nothing was
      entered. */
  lemma CertificateWritesShape(p: string, d: DocState)
    ensures var ws := CertificateWrites(p, d);
      && |ws| <= 7
      && (forall i :: 0 <= i < |ws| ==> UpsertFor(ws[i], p))
      && (ws == [] <==> p == "" || NothingEntered(d))
  {
    var ws := CertificateWrites(p, d);
    if p != "" {
      var slots := CertificateSlots(p, d);
      SelectedSpec(slots);
      forall i | 0 <= i < |ws|
        ensures UpsertFor(ws[i], p)
      {
        assert ws[i] in ws;
        var j :| 0 <= j < |slots| && slots[j].on && slots[j].call == ws[i];
      }
      if forall i :: 0 <= i < |slots| ==> !slots[i].on {
        assert !slots[0].on && !slots[1].on && !slots[2].on && !slots[3].on;
        assert !slots[4].on && !slots[5].on && !slots[6].on;
      }
    }
  }

  /** An upsert of a certificate of plate `p` with at most one file. */
  predicate UpsertFor(c: Call, p: string) {
    c.AddOrUpdateCertificado? && c.c.placa == p && |c.c.adjuntos| <= 1
  }

  /** The fumigation inputs are checked by the documents section but never
      saved. */
  lemma FumigacionNeverSaved(p: string, d: DocState, date: Option<Date>, file: Option<FileRef>)
    ensures CertificateWrites(p, d.(fumigacionDate := date, fumigacionFile := file))
      == CertificateWrites(p, d)
  {
    assert CertificateSlots(p, d.(fumigacionDate := date, fumigacionFile := file)) == CertificateSlots(p, d);
  }

  // ---------------------------------------------------------------------------
  // guardarStagedCertificados and eliminarVehiculoYCertificados
  // ---------------------------------------------------------------------------

  function Replacement(p: string, it: StagedFile): Call {
    ReplaceCertificadoAdjunto(p, it.tipo, it.file)
  }

  /** One replacement per staged file, in staging order; none for a blank
      plate. */
  function Replacements(p: string, staged: seq<StagedFile>): (r: seq<Call>)
    ensures p == "" ==> r == []
    ensures p != "" ==> (|r| == |staged|
      && forall i :: 0 <= i < |staged| ==> r[i] == Replacement(p, staged[i]))
  {
    if p == "" || staged == [] then []
    else Replacements(p, staged[..|staged| - 1]) + [Replacement(p, staged[|staged| - 1])]
  }

  /** The decommission: the certificates first, then the vehicle. */
  function BajaCalls(p: string): seq<Call> {
    if p == "" then [] else [DeleteCertificadosPorPlaca(p), DeleteVehiculoByPlaca(p)]
  }

  /** The calls a save makes for the action, before any of them fails.
      The certificates and the deletions use the trimmed plate; the
      vehicle is upserted as entered. */
  function SaveCalls(accion: Accion, v: Vehiculo, d: DocState, staged: seq<StagedFile>): seq<Call> {
    var p := Trim(Field(v, Placa));
    match accion
    case Baja => BajaCalls(p)
    case Crear => [UpsertVehiculo(v)] + CertificateWrites(p, d)
    case Actualizar => [UpsertVehiculo(v)] + Replacements(p, staged)
  }

  // ---------------------------------------------------------------------------
  // The form's state
  // ---------------------------------------------------------------------------

  datatype FormState = FormState(
    accion: Accion,
    busy: bool,
    isSaving: bool,
    staged: seq<StagedFile>,
    docValido: bool,
    erroresDocs: seq<string>,
    vehiculo: Vehiculo,
    doc: DocState,
    lastLoadKey: string,
    log: seq<Call>)

  /** Every text property of the vehicle, blank. */
  const BlankText: map<VehField, string> :=
    map[Placa := "", SOAT := "", Codigo := "", Marca := "", Modelo := "", Capacidad := "",
        Otros := "", LargoRampa := "", AnchoRampa := "", NroResolucion := "",
        MedidasInternas := "", MedidasExternas := "", AlturaPiso := "", PesoCargaUtil := "",
        PesoNeto := "", Temperatura := "", TipoTemperatura := "", TipoUnidad := "",
        CorreosNotificacion := ""]

  /** The vehicle after `resetForm`: blank text, both toggles off, active;
      the company is kept when it is set (a non-empty name, a non-zero
      identifier). */
  function ResetVehiculo(s: Vehiculo): Vehiculo {
    Vehiculo(BlankText, Some(false), Some(false), Some(true),
      if Truthy(s.empresa) then s.empresa else None,
      if s.empresaId.Some? && s.empresaId.value != 0 then s.empresaId else None)
  }

  /** `resetForm` */
  function Reset(st: FormState): FormState {
    st.(vehiculo := ResetVehiculo(st.vehiculo), doc := EmptyDoc, staged := [],
        docValido := true, erroresDocs := [])
  }

  /** A reset blanks every text property, switches both toggles off,
      keeps the company name when it is set and the company identifier
      when it is non-zero, and clears every document input (the fumigation
      ones included), the staged files and the validation errors; the
      action, the log and the busy flags are untouched. */
  lemma ResetEffect(st: FormState)
    ensures var r := Reset(st);
      && (forall f :: Field(r.vehiculo, f) == "")
      && r.vehiculo.rampa == Some(false) && r.vehiculo.bonificacion == Some(false)
      && r.vehiculo.activo == Some(true)
      && (Truthy(st.vehiculo.empresa) ==> r.vehiculo.empresa == st.vehiculo.empresa)
      && (!Truthy(st.vehiculo.empresa) ==> r.vehiculo.empresa.None?)
      && (st.vehiculo.empresaId.Some? && st.vehiculo.empresaId.value != 0 ==>
            r.vehiculo.empresaId == st.vehiculo.empresaId)
      && (st.vehiculo.empresaId.None? || st.vehiculo.empresaId.value == 0 ==> r.vehiculo.empresaId.None?)
      && r.doc == EmptyDoc && NothingEntered(r.doc)
      && r.staged == [] && r.docValido && r.erroresDocs == []
      && r.accion == st.accion && r.log == st.log && r.busy == st.busy
      && r.isSaving == st.isSaving && r.lastLoadKey == st.lastLoadKey
  {
    forall f
      ensures Field(Reset(st).vehiculo, f) == ""
    {
      assert f in BlankText.Keys by {
        match f
        case Placa => case SOAT => case Codigo => case Marca => case Modelo =>
        case Capacidad => case Otros => case LargoRampa => case AnchoRampa =>
        case NroResolucion => case MedidasInternas => case MedidasExternas =>
        case AlturaPiso => case PesoCargaUtil => case PesoNeto => case Temperatura =>
        case TipoTemperatura => case TipoUnidad => case CorreosNotificacion =>
      }
    }
  }

  /** Resetting twice is resetting once. */
  lemma ResetIdempotent(st: FormState)
    ensures Reset(Reset(st)) == Reset(st)
  {
  }

  /** `onGuardar`: refused (an alert, nothing else) while the plate is
      empty, or when creating with invalid documents; otherwise the calls
      of the action are awaited in order. If one throws, the calls before
      it stand and the form keeps what was entered; if none throws, a
      creation or a decommission resets the form and an update clears
      the staged files. The busy flags end lowered either way. */
  function Guardar(st: FormState, rejected: set<Call>): (r: FormState)
    ensures r.accion == st.accion && r.lastLoadKey == st.lastLoadKey && st.log <= r.log
  {
    if Field(st.vehiculo, Placa) == "" || (st.accion == Crear && !st.docValido) then st
    else Finish(st, Attempt(SaveCalls(st.accion, st.vehiculo, st.doc, st.staged), rejected))
  }

  /** The form after the awaited calls of a save ran as `r`. */
  function Finish(st: FormState, r: Run): (f: FormState)
    ensures f.log == st.log + r.calls && f.accion == st.accion && f.lastLoadKey == st.lastLoadKey
  {
    Settle(st.(log := st.log + r.calls), r.threw)
  }

  /** The `finally` and, when nothing threw, the clean-up before it: an
      update drops the staged files, the other actions reset the form. */
  function Settle(st: FormState, threw: bool): (r: FormState)
    ensures r.log == st.log && r.accion == st.accion && r.lastLoadKey == st.lastLoadKey
  {
    var after := st.(busy := false, isSaving := false);
    if threw then after
    else if st.accion == Actualizar then after.(staged := [])
    else Reset(after)
  }

  /** Refused saves change nothing and call nothing. */
  lemma GuardarRefused(st: FormState, rejected: set<Call>)
    requires Field(st.vehiculo, Placa) == "" || (st.accion == Crear && !st.docValido)
    ensures Guardar(st, rejected) == st
  {
  }

  /** A save that goes ahead ends with both busy flags lowered and only
      appends to the log, whatever fails. */
  lemma GuardarReleasesBusy(st: FormState, rejected: set<Call>)
    requires Field(st.vehiculo, Placa) != "" && (st.accion != Crear || st.docValido)
    ensures var g := Guardar(st, rejected);
      && !g.busy && !g.isSaving
      && |st.log| <= |g.log| && g.log[..|st.log|] == st.log
      && g.accion == st.accion && g.lastLoadKey == st.lastLoadKey
  {
    var g := Guardar(st, rejected);
    assert g.log[..|st.log|] == st.log;
  }

  /** When a call fails, everything entered is kept so the user can
      retry: the vehicle, the documents and the staged files are as they
      were. */
  lemma GuardarFailureKeepsInput(st: FormState, rejected: set<Call>)
    requires Attempt(SaveCalls(st.accion, st.vehiculo, st.doc, st.staged), rejected).threw
    ensures var g := Guardar(st, rejected);
      && g.vehiculo == st.vehiculo && g.doc == st.doc && g.staged == st.staged
      && g.docValido == st.docValido && g.erroresDocs == st.erroresDocs
  {
  }

  /** A creation saves the vehicle first and then its certificates; when
      nothing fails the form is reset for the next vehicle. */
  lemma CrearSuccess(st: FormState)
    requires st.accion == Crear && st.docValido && Field(st.vehiculo, Placa) != ""
    ensures var g := Guardar(st, {});
      var p := Trim(Field(st.vehiculo, Placa));
      && g.log == st.log + [UpsertVehiculo(st.vehiculo)] + CertificateWrites(p, st.doc)
      && g == Reset(st.(log := g.log, busy := false, isSaving := false))
  {
    NothingRejectedCompletes(SaveCalls(st.accion, st.vehiculo, st.doc, st.staged));
  }

  /** An update saves the vehicle and then replaces one attachment per
      staged file; on success the staged files are cleared and the rest of
      the form, the vehicle included, is kept. */
  lemma ActualizarSuccess(st: FormState)
    requires st.accion == Actualizar && Field(st.vehiculo, Placa) != ""
    ensures var g := Guardar(st, {});
      var p := Trim(Field(st.vehiculo, Placa));
      && g.log == st.log + [UpsertVehiculo(st.vehiculo)] + Replacements(p, st.staged)
      && g == st.(log := g.log, busy := false, isSaving := false, staged := [])
  {
    NothingRejectedCompletes(SaveCalls(st.accion, st.vehiculo, st.doc, st.staged));
  }

  /** A decommission deletes the certificates before the vehicle, so a
      failure of the first leaves the vehicle in place. */
  lemma BajaOrder(st: FormState, rejected: set<Call>)
    requires st.accion == Baja && Trim(Field(st.vehiculo, Placa)) != ""
    ensures var p := Trim(Field(st.vehiculo, Placa));
      var g := Guardar(st, rejected);
      && (DeleteCertificadosPorPlaca(p) in rejected ==> g.log == st.log && g.vehiculo == st.vehiculo)
      && (DeleteCertificadosPorPlaca(p) !in rejected && DeleteVehiculoByPlaca(p) !in rejected ==>
            g.log == st.log + [DeleteCertificadosPorPlaca(p), DeleteVehiculoByPlaca(p)]
            && g == Reset(st.(log := g.log, busy := false, isSaving := false)))
  {
    var p := Trim(Field(st.vehiculo, Placa));
    assert Field(st.vehiculo, Placa) != "";
    AttemptPair(DeleteCertificadosPorPlaca(p), DeleteVehiculoByPlaca(p), rejected);
  }

  /** The plate is required untrimmed but used trimmed: a plate of spaces
      passes the check, deletes nothing, and the form is still reset as
      after a decommission. */
  lemma BajaOfBlankPlate(st: FormState, rejected: set<Call>)
    requires st.accion == Baja && Field(st.vehiculo, Placa) != "" && Trim(Field(st.vehiculo, Placa)) == ""
    ensures Guardar(st, rejected) == Reset(st.(busy := false, isSaving := false))
  {
    assert st.log + [] == st.log;
  }

  /** A creation is blocked exactly by the violations the documents
      section reported. */
  lemma CrearFollowsValidation(st: FormState, show: ShowFlags, today: Date, rejected: set<Call>)
    requires ValidDate(today) && st.accion == Crear && Field(st.vehiculo, Placa) != ""
    ensures var vs := Violations(st.doc, show, today);
      var reported := st.(docValido := vs == [], erroresDocs := Messages(vs));
      && (vs != [] ==> Guardar(reported, rejected) == reported)
      && (vs == [] ==> Guardar(reported, {}).log == st.log + SaveCalls(Crear, st.vehiculo, st.doc, st.staged))
  {
    NothingRejectedCompletes(SaveCalls(Crear, st.vehiculo, st.doc, st.staged));
  }

  // ---------------------------------------------------------------------------
  // Effect of a save on the certificates list
  // ---------------------------------------------------------------------------

  /** What a completed call does to the certificates list. The vehicle
      calls do not touch it; a replacement that finds nothing leaves it
      as it was. */
  ghost function ApplyCall(s: Store, c: Call): Store {
    match c
    case AddOrUpdateCertificado(x) => Upsert(s, x).store
    case ReplaceCertificadoAdjunto(p, t, f) =>
      (match ReplaceByKind(s, p, t, f)
       case Success(o) => o.store
       case Failure(_) => s)
    case DeleteCertificadosPorPlaca(p) => DeleteForPlate(s, p)
    case _ => s
  }

  ghost function ApplyCalls(s: Store, cs: seq<Call>): Store
    decreases |cs|
  {
    if cs == [] then s else ApplyCalls(ApplyCall(s, cs[0]), cs[1..])
  }

  /** The requests a call sends to the certificates list, given the list
      as the call starts; the vehicle calls send none. */
  ghost function Requests(s: Store, c: Call): seq<Request> {
    match c
    case AddOrUpdateCertificado(x) => UpsertRequests(s, x)
    case ReplaceCertificadoAdjunto(p, t, f) => ReplaceRequests(s, p, t, f)
    case DeleteCertificadosPorPlaca(p) => DeleteRequests(s, p)
    case _ => []
  }

  /** A call that completes has done all of its requests. */
  lemma CallIsItsRequests(s: Store, c: Call)
    ensures PerformAll(s, Requests(s, c)) == ApplyCall(s, c)
  {
    match c
    case AddOrUpdateCertificado(x) =>
      UpsertRequestsComplete(s, x);
    case ReplaceCertificadoAdjunto(p, t, f) =>
      var ms := ReplaceMatches(s, p, t);
      if ms != {} {
        ReplaceByIdRequestsComplete(s, MaxOf(ms), f);
      }
    case DeleteCertificadosPorPlaca(p) =>
      DeleteRequestsPartial(s, p, 0);
    case _ =>
  }

  /** What a call that throws after its first `k` requests leaves on the
      list: nothing is rolled back. */
  ghost function ApplyFailed(s: Store, c: Call, k: nat): Store
    requires k <= |Requests(s, c)|
  {
    PerformAll(s, Requests(s, c)[..k])
  }

  /** Saving again after a call failed part-way: the repeated call leaves
      the list as one successful call would have, for the non-empty kinds
      the form saves. */
  lemma RetryRepairs(s: Store, c: Call, k: nat)
    requires ValidStore(s) && k <= |Requests(s, c)|
    requires c.AddOrUpdateCertificado? ==> Truthy(c.c.certificado)
    ensures ApplyCall(ApplyFailed(s, c, k), c) == ApplyCall(s, c)
  {
    match c
    case AddOrUpdateCertificado(x) =>
      UpsertRetryRepairs(s, x, k);
    case ReplaceCertificadoAdjunto(p, t, f) =>
      ReplaceRetryRepairs(s, p, t, f, k);
    case DeleteCertificadosPorPlaca(p) =>
      DeleteRequestsPartial(s, p, k);
    case _ =>
      assert Requests(s, c)[..k] == [];
  }

  /** The list after awaiting `cs`: the completed calls in full and, when
      one threw, the first `k` requests of that call (all of them when it
      has fewer). */
  ghost function AfterCalls(s: Store, cs: seq<Call>, rejected: set<Call>, k: nat): Store {
    var r := Attempt(cs, rejected);
    var done := ApplyCalls(s, r.calls);
    if r.threw && |r.calls| < |cs| then
      var c := cs[|r.calls|];
      ApplyFailed(done, c, if k <= |Requests(done, c)| then k else |Requests(done, c)|)
    else done
  }

  /** An update never creates or deletes a certificate, whichever call
      fails and however far it got: a replacement cut short only changes
      that record's files. */
  lemma UpdateKeepsRecordsWhateverFails(v: Vehiculo, d: DocState, staged: seq<StagedFile>,
                                        rejected: set<Call>, s: Store, k: nat)
    requires ValidStore(s)
    ensures AfterCalls(s, SaveCalls(Actualizar, v, d, staged), rejected, k).items.Keys == s.items.Keys
  {
    var cs := SaveCalls(Actualizar, v, d, staged);
    var r := Attempt(cs, rejected);
    AttemptSpec(cs, rejected);
    UpdateCallsKeepRecords(v, d, staged);
    forall i | 0 <= i < |r.calls|
      ensures KeepsRecords(r.calls[i])
    {
      assert r.calls[i] == cs[i];
    }
    KeepsRecordsKeepsKeys(s, r.calls);
    var done := ApplyCalls(s, r.calls);
    if r.threw {
      var c := cs[|r.calls|];
      FailedKeepsKeys(done, c, if k <= |Requests(done, c)| then k else |Requests(done, c)|);
    }
  }

  /** A call that neither upserts nor deletes certificates keeps the
      records even when it fails part-way. */
  lemma FailedKeepsKeys(s: Store, c: Call, k: nat)
    requires KeepsRecords(c) && k <= |Requests(s, c)|
    ensures ApplyFailed(s, c, k).items.Keys == s.items.Keys
  {
    if c.ReplaceCertificadoAdjunto? {
      var ms := ReplaceMatches(s, c.placa, c.tipo);
      if ms != {} {
        ReplacePartial(s, MaxOf(ms), c.file, k);
      } else {
        assert Requests(s, c)[..k] == [];
      }
    } else {
      assert Requests(s, c)[..k] == [];
    }
  }

  /** Neither an upsert nor a deletion of certificates. */
  predicate KeepsRecords(c: Call) {
    !c.AddOrUpdateCertificado? && !c.DeleteCertificadosPorPlaca?
  }

  lemma {:induction false} KeepsRecordsKeepsKeys(s: Store, cs: seq<Call>)
    requires ValidStore(s)
    requires forall i :: 0 <= i < |cs| ==> KeepsRecords(cs[i])
    ensures ValidStore(ApplyCalls(s, cs)) && ApplyCalls(s, cs).items.Keys == s.items.Keys
      && ApplyCalls(s, cs).nextId == s.nextId
    decreases |cs|
  {
    if cs != [] {
      var s1 := ApplyCall(s, cs[0]);
      if cs[0].ReplaceCertificadoAdjunto? {
        var ms := ReplaceMatches(s, cs[0].placa, cs[0].tipo);
        if ms != {} {
          ReplaceByIdEffect(s, MaxOf(ms), cs[0].file);
        }
      }
      assert ValidStore(s1) && s1.items.Keys == s.items.Keys && s1.nextId == s.nextId;
      KeepsRecordsKeepsKeys(s1, cs[1..]);
    }
  }

  /** An update never creates or deletes a certificate, whatever fails:
      it only replaces attachments of existing records. */
  lemma ActualizarCreatesNoCertificate(st: FormState, rejected: set<Call>, s: Store)
    requires st.accion == Actualizar && ValidStore(s)
    ensures var done := Guardar(st, rejected).log[|st.log|..];
      ApplyCalls(s, done).items.Keys == s.items.Keys
  {
    var cs := SaveCalls(st.accion, st.vehiculo, st.doc, st.staged);
    var done := Guardar(st, rejected).log[|st.log|..];
    if Field(st.vehiculo, Placa) == "" {
      assert done == [];
    } else {
      var r := Attempt(cs, rejected);
      AttemptSpec(cs, rejected);
      assert done == r.calls;
      UpdateCallsKeepRecords(st.vehiculo, st.doc, st.staged);
      forall i | 0 <= i < |r.calls|
        ensures KeepsRecords(r.calls[i])
      {
        assert r.calls[i] == cs[i];
      }
      KeepsRecordsKeepsKeys(s, r.calls);
    }
  }

  /** An update saves the vehicle and replaces attachments; none of its
      calls adds or deletes a certificate. */
  lemma UpdateCallsKeepRecords(v: Vehiculo, d: DocState, staged: seq<StagedFile>)
    ensures var cs := SaveCalls(Actualizar, v, d, staged);
      forall i :: 0 <= i < |cs| ==> KeepsRecords(cs[i])
  {
    var cs := SaveCalls(Actualizar, v, d, staged);
    var rest := Replacements(Trim(Field(v, Placa)), staged);
    assert cs == [UpsertVehiculo(v)] + rest;
    forall i | 0 <= i < |cs|
      ensures KeepsRecords(cs[i])
    {
      if i > 0 {
        assert cs[i] == rest[i - 1];
      }
    }
  }

  /** A decommission whose first call goes through leaves no certificate
      of the plate. */
  lemma BajaRemovesPlateCertificates(st: FormState, rejected: set<Call>, s: Store)
    requires st.accion == Baja
    requires var p := Trim(Field(st.vehiculo, Placa)); p != "" && DeleteCertificadosPorPlaca(p) !in rejected
    ensures var p := Trim(Field(st.vehiculo, Placa));
      var after := ApplyCalls(s, Guardar(st, rejected).log[|st.log|..]);
      forall id :: id in after.items ==> after.items[id].title != p
  {
    var p := Trim(Field(st.vehiculo, Placa));
    assert Field(st.vehiculo, Placa) != "";
    var cs := [DeleteCertificadosPorPlaca(p), DeleteVehiculoByPlaca(p)];
    AttemptPair(DeleteCertificadosPorPlaca(p), DeleteVehiculoByPlaca(p), rejected);
    var r := Attempt(cs, rejected);
    assert Guardar(st, rejected).log == st.log + r.calls;
    var done := Guardar(st, rejected).log[|st.log|..];
    assert done == r.calls;
    TrimKeepsTrimmed(p);
    DeleteForPlateEffect(s, p);
    var d := DeleteForPlate(s, p);
    if DeleteVehiculoByPlaca(p) in rejected {
      assert done == [DeleteCertificadosPorPlaca(p)];
      assert done[1..] == [];
      assert ApplyCalls(s, done) == ApplyCalls(d, []);
    } else {
      assert done == cs;
      assert done[1..] == [DeleteVehiculoByPlaca(p)];
      assert done[1..][1..] == [];
      assert ApplyCalls(s, done) == ApplyCalls(d, [DeleteVehiculoByPlaca(p)]);
      assert ApplyCalls(d, [DeleteVehiculoByPlaca(p)]) == ApplyCalls(d, []);
    }
  }

  // ---------------------------------------------------------------------------
  // Reloading the vehicle grid
  // ---------------------------------------------------------------------------

  function AccionName(a: Accion): string {
    match a
    case Crear => "crear"
    case Actualizar => "actualizar"
    case Baja => "baja"
  }

  /** `${accion}|${filtroEmpresa ?? ""}` */
  function LoadKey(a: Accion, filtro: Option<string>): string {
    AccionName(a) + "|" + filtro.GetOr("")
  }

  /** Two loads share a key exactly when they are for the same action and
      the same company text. */
  lemma LoadKeyInjective(a: Accion, e: Option<string>, b: Accion, f: Option<string>)
    requires a != Crear && b != Crear
    ensures LoadKey(a, e) == LoadKey(b, f) <==> a == b && e.GetOr("") == f.GetOr("")
  {
    if LoadKey(a, e) == LoadKey(b, f) {
      assert LoadKey(a, e)[0] == LoadKey(b, f)[0];
      var n := |AccionName(a) + "|"|;
      assert LoadKey(a, e)[n..] == e.GetOr("");
      assert LoadKey(b, f)[n..] == f.GetOr("");
    }
  }

  /** The reload effect: only while updating or decommissioning, and only
      when the action or the company filter changed since the last load. */
  function Load(st: FormState, filtrar: bool): (r: FormState)
    ensures r == st.(lastLoadKey := r.lastLoadKey, log := r.log) && st.log <= r.log
  {
    if st.accion == Crear then st
    else
      var filtro := if filtrar then st.vehiculo.empresa else None;
      var key := LoadKey(st.accion, filtro);
      if key == st.lastLoadKey then st
      else st.(lastLoadKey := key, log := st.log + [LoadVehiculos(filtro)])
  }

  /** Only a supplier that is neither distributor nor coordinator has its
      grid restricted to its company; everyone else loads every vehicle. */
  lemma OnlyPureSupplierFiltered(st: FormState, proveedor: Option<bool>, distribuidor: Option<bool>,
                                 coordinador: Option<bool>)
    ensures var l := Load(st, FiltrarProveedorEfectivo(proveedor, distribuidor, coordinador));
      && (!IsTrue(proveedor) || IsTrue(distribuidor) || IsTrue(coordinador) ==>
            l.log == st.log || l.log == st.log + [LoadVehiculos(None)])
      && (IsTrue(proveedor) && !IsTrue(distribuidor) && !IsTrue(coordinador)
          && st.accion != Crear && LoadKey(st.accion, st.vehiculo.empresa) != st.lastLoadKey ==>
            l.log == st.log + [LoadVehiculos(st.vehiculo.empresa)])
  {
  }

  /** Re-running the effect without a change loads nothing more. */
  lemma LoadIdempotent(st: FormState, filtrar: bool)
    ensures Load(Load(st, filtrar), filtrar) == Load(st, filtrar)
  {
  }

  /** The effect loads at most once, and only with the company as filter
      when filtering applies. */
  lemma LoadEffect(st: FormState, filtrar: bool)
    ensures var l := Load(st, filtrar);
      && (st.accion == Crear ==> l == st)
      && (l.log == st.log || l.log == st.log + [LoadVehiculos(if filtrar then st.vehiculo.empresa else None)])
      && (!filtrar ==> l.log == st.log || l.log == st.log + [LoadVehiculos(None)])
  {
  }

  // ---------------------------------------------------------------------------
  // The form
  // ---------------------------------------------------------------------------

  class RegistroForm {
    var accion: Accion
    var busy: bool
    var isSaving: bool
    var staged: seq<StagedFile>
    var docValido: bool
    var erroresDocs: seq<string>
    var vehiculo: Vehiculo
    var doc: DocState
    var lastLoadKey: string
    /** The remote calls made, oldest first: the awaited calls of a save
        that completed, and every reload of the grid as the load effect
        starts it (not awaited, its failure ignored). */
    var log: seq<Call>

    function State(): FormState
      reads this
    {
      FormState(accion, busy, isSaving, staged, docValido, erroresDocs, vehiculo, doc,
        lastLoadKey, log)
    }

    /** The form as it opens: creating, nothing entered, documents valid. */
    constructor ()
      ensures State() == FormState(Crear, false, false, [], true, [], Initial, EmptyDoc, "", [])
    {
      accion := Crear;
      busy := false;
      isSaving := false;
      staged := [];
      docValido := true;
      erroresDocs := [];
      vehiculo := Initial;
      doc := EmptyDoc;
      lastLoadKey := "";
      log := [];
    }

    /** One awaited remote call: it completes, or it is rejected and
        throws. */
    method Remote(c: Call, rejected: set<Call>) returns (threw: bool)
      modifies this`log
      ensures threw == (c in rejected)
      ensures log == old(log) + (if threw then [] else [c])
    {
      threw := c in rejected;
      if !threw {
        log := log + [c];
      }
    }

    /** `if (cond) await c` inside a sequence that stops at the first
        throw; `done` are the calls of the sequence so far. */
    method Issue(cond: bool, c: Call, rejected: set<Call>, threwBefore: bool,
                 ghost base: seq<Call>, ghost done: seq<Call>) returns (threw: bool)
      requires log == base + Attempt(done, rejected).calls
      requires threwBefore == Attempt(done, rejected).threw
      modifies this`log
      ensures log == base + Attempt(done + When(cond, c), rejected).calls
      ensures threw == Attempt(done + When(cond, c), rejected).threw
    {
      AttemptAppend(done, When(cond, c), rejected);
      AttemptSpec(done, rejected);
      if !cond {
        assert done + When(cond, c) == done;
      }
      if !threwBefore && cond {
        assert [c][1..] == [];
        threw := Remote(c, rejected);
      } else {
        threw := threwBefore;
      }
    }

    /** The `k`-th of a series of `if (cond) await c` steps. */
    method IssueSlot(slots: seq<Slot>, k: nat, rejected: set<Call>, threwBefore: bool,
                     ghost base: seq<Call>) returns (threw: bool)
      requires k < |slots|
      requires log == base + Attempt(Selected(slots[..k]), rejected).calls
      requires threwBefore == Attempt(Selected(slots[..k]), rejected).threw
      modifies this`log
      ensures log == base + Attempt(Selected(slots[..k + 1]), rejected).calls
      ensures threw == Attempt(Selected(slots[..k + 1]), rejected).threw
    {
      SelectedStep(slots, k);
      threw := Issue(slots[k].on, slots[k].call, rejected, threwBefore, base, Selected(slots[..k]));
    }

    /** `guardarCertificados`: the seven conditional upserts of
        `CertificateSlots`, in order. */
    method GuardarCertificados(p: string, d: DocState, rejected: set<Call>) returns (threw: bool)
      modifies this`log
      ensures var r := Attempt(CertificateWrites(p, d), rejected);
        log == old(log) + r.calls && threw == r.threw
    {
      threw := false;
      if p == "" {
        assert log == old(log) + [];
        return;
      }
      threw := IssueSeven(CertificateSlots(p, d), rejected);
    }

    /** Seven `if (on) await call` steps in a row, stopping at the first
        call that throws. */
    method IssueSeven(slots: seq<Slot>, rejected: set<Call>) returns (threw: bool)
      requires |slots| == 7
      modifies this`log
      ensures var r := Attempt(Selected(slots), rejected);
        log == old(log) + r.calls && threw == r.threw
    {
      ghost var base := log;
      assert slots[..0] == [];
      threw := IssueSlot(slots, 0, rejected, false, base);
      threw := IssueSlot(slots, 1, rejected, threw, base);
      threw := IssueSlot(slots, 2, rejected, threw, base);
      threw := IssueSlot(slots, 3, rejected, threw, base);
      threw := IssueSlot(slots, 4, rejected, threw, base);
      threw := IssueSlot(slots, 5, rejected, threw, base);
      threw := IssueSlot(slots, 6, rejected, threw, base);
      assert slots[..7] == slots;
    }

    /** `guardarStagedCertificados`: the staged replacements, one after
        the other, until one throws. */
    method GuardarStaged(p: string, items: seq<StagedFile>, rejected: set<Call>) returns (threw: bool)
      modifies this`log
      ensures var r := Attempt(Replacements(p, items), rejected);
        log == old(log) + r.calls && threw == r.threw
    {
      threw := false;
      if p == "" || |items| == 0 {
        assert log == old(log) + [];
        return;
      }
      ghost var all := Replacements(p, items);
      var i := 0;
      while i < |items| && !threw
        invariant 0 <= i <= |items|
        invariant log == old(log) + Attempt(all[..i], rejected).calls
        invariant threw == Attempt(all[..i], rejected).threw
      {
        assert all[..i + 1] == all[..i] + When(true, Replacement(p, items[i]));
        threw := Issue(true, Replacement(p, items[i]), rejected, threw, old(log), all[..i]);
        i := i + 1;
      }
      AttemptAppend(all[..i], all[i..], rejected);
      AttemptSpec(all[..i], rejected);
      assert all[..i] + all[i..] == all;
    }

    /** `eliminarVehiculoYCertificados`: a blank trimmed plate only
        alerts; otherwise the certificates, then the vehicle. */
    method Eliminar(p: string, rejected: set<Call>) returns (threw: bool)
      modifies this`log
      ensures var r := Attempt(BajaCalls(p), rejected);
        log == old(log) + r.calls && threw == r.threw
    {
      threw := false;
      if p == "" {
        assert log == old(log) + [];
        return;
      }
      AttemptPair(DeleteCertificadosPorPlaca(p), DeleteVehiculoByPlaca(p), rejected);
      threw := Remote(DeleteCertificadosPorPlaca(p), rejected);
      if !threw {
        threw := Remote(DeleteVehiculoByPlaca(p), rejected);
      }
    }

    /** `resetForm` */
    method ResetForm()
      modifies this`vehiculo, this`doc, this`staged, this`docValido, this`erroresDocs
      ensures State() == Reset(old(State()))
    {
      vehiculo := ResetVehiculo(vehiculo);
      doc := EmptyDoc;
      staged := [];
      docValido := true;
      erroresDocs := [];
    }

    /** The awaited calls of `onGuardar` for the current action. */
    method Perform(rejected: set<Call>) returns (threw: bool)
      modifies this`log
      ensures var r := Attempt(SaveCalls(accion, vehiculo, doc, staged), rejected);
        log == old(log) + r.calls && threw == r.threw
    {
      var p := Trim(Field(vehiculo, Placa));
      if accion == Baja {
        assert SaveCalls(accion, vehiculo, doc, staged) == BajaCalls(p);
        threw := Eliminar(p, rejected);
        assert log == old(log) + Attempt(SaveCalls(accion, vehiculo, doc, staged), rejected).calls;
      } else {
        ghost var rest := if accion == Crear then CertificateWrites(p, doc) else Replacements(p, staged);
        ghost var r := Attempt(rest, rejected);
        assert SaveCalls(accion, vehiculo, doc, staged) == [UpsertVehiculo(vehiculo)] + rest;
        UpsertFirst(UpsertVehiculo(vehiculo), rest, rejected);
        threw := Remote(UpsertVehiculo(vehiculo), rejected);
        if !threw {
          ghost var mid := log;
          if accion == Crear {
            threw := GuardarCertificados(p, doc, rejected);
          } else {
            threw := GuardarStaged(p, staged, rejected);
          }
          AppendAssoc(old(log), [UpsertVehiculo(vehiculo)], r.calls);
        }
      }
    }

    /** `onGuardar` */
    method OnGuardar(rejected: set<Call>)
      modifies this
      ensures State() == Guardar(old(State()), rejected)
    {
      if Field(vehiculo, Placa) == "" {
        return;
      }
      if accion == Crear && !docValido {
        return;
      }
      Save(rejected);
    }

    /** The `try` of `onGuardar` once the guards passed. */
    method Save(rejected: set<Call>)
      modifies this
      ensures State() == Finish(old(State()), Attempt(SaveCalls(old(accion), old(vehiculo), old(doc), old(staged)), rejected))
    {
      busy := true;
      isSaving := true;
      var threw := Perform(rejected);
      Conclude(threw);
    }

    /** The end of `onGuardar`'s `try` and its `finally`. */
    method Conclude(threw: bool)
      modifies this
      ensures State() == Settle(old(State()), threw)
    {
      if !threw {
        if accion == Actualizar {
          staged := [];
        } else {
          ResetForm();
        }
      }
      isSaving := false;
      busy := false;
    }

    /** Choosing an action in the tiles; choosing to create also resets
        the form. */
    method SelectAccion(a: Accion)
      modifies this
      ensures a == Crear ==> State() == Reset(old(State()).(accion := Crear))
      ensures a != Crear ==> State() == old(State()).(accion := a)
    {
      accion := a;
      if a == Crear {
        ResetForm();
      }
    }

    /** `onValidityChange(ok, errs)` from the documents section. */
    method OnValidityChange(ok: bool, errs: seq<string>)
      modifies this`docValido, this`erroresDocs
      ensures State() == old(State()).(docValido := ok, erroresDocs := errs)
    {
      docValido := ok;
      erroresDocs := errs;
    }

    /** The reload effect, run after a render that changed the action, the
        company or the filter flag. */
    method LoadEffect(filtrar: bool)
      modifies this`lastLoadKey, this`log
      ensures State() == Load(old(State()), filtrar)
    {
      if accion != Actualizar && accion != Baja {
        return;
      }
      var filtro := if filtrar then vehiculo.empresa else None;
      var key := LoadKey(accion, filtro);
      if lastLoadKey == key {
        return;
      }
      lastLoadKey := key;
      log := log + [LoadVehiculos(filtro)];
    }
  }
}
