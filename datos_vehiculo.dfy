/** The vehicle-data section of the form: the updaters it hands to its
    inputs, the default temperature it fills in, and which conditional
    fields it shows. */
module DatosVehiculo {
  import opened Wrappers
  import opened Text
  import opened Vehiculos

  /** A dropdown option: the stored key and the displayed text. */
  datatype ChoiceOption = ChoiceOption(key: string, text: string)

  /** The options of each choice column, by internal column name. */
  type Choices = map<string, seq<ChoiceOption>>

  /** `choices[column] || []` */
  function Options(choices: Choices, column: string): seq<ChoiceOption> {
    if column in choices then choices[column] else []
  }

  /** `opts.find(o => String(o.key) === key)`: the position of the first
      option with that key. */
  function FindKey(opts: seq<ChoiceOption>, key: string): (r: Option<nat>)
    ensures r.Some? ==>
      r.value < |opts| && opts[r.value].key == key
      && forall j :: 0 <= j < r.value ==> opts[j].key != key
    ensures r.None? ==> forall j :: 0 <= j < |opts| ==> opts[j].key != key
  {
    if opts == [] then None
    else if opts[0].key == key then Some(0)
    else
      var r := FindKey(opts[1..], key);
      if r.Some? then Some(r.value + 1) else None
  }

  /** `opts.find(o => normalize(o.text) === "seco")`: the position of the
      first option whose normalised text is "seco". */
  function FindSeco(opts: seq<ChoiceOption>): (r: Option<nat>)
    ensures r.Some? ==>
      r.value < |opts| && Norm(opts[r.value].text) == "seco"
      && forall j :: 0 <= j < r.value ==> Norm(opts[j].text) != "seco"
    ensures r.None? ==> forall j :: 0 <= j < |opts| ==> Norm(opts[j].text) != "seco"
  {
    if opts == [] then None
    else if Norm(opts[0].text) == "seco" then Some(0)
    else
      var r := FindSeco(opts[1..]);
      if r.Some? then Some(r.value + 1) else None
  }

  // ---------------------------------------------------------------------------
  // Updaters
  // ---------------------------------------------------------------------------

  /** `setText(key)`: the property becomes the typed value, `""` when the
      input reports none. */
  function SetText(s: Vehiculo, key: VehField, value: Option<string>): Vehiculo {
    s.(text := s.text[key := value.GetOr("")])
  }

  /** `setChoice(key)`: the property becomes the chosen option's key, `""`
      when no option is chosen. */
  function SetChoice(s: Vehiculo, key: VehField, opt: Option<ChoiceOption>): Vehiculo {
    SetText(s, key, if opt.Some? then Some(opt.value.key) else None)
  }

  /** An updater changes the one property it is for and keeps every other
      property, toggle and company field. */
  lemma SetTextChangesOneKey(s: Vehiculo, key: VehField, value: Option<string>)
    ensures var r := SetText(s, key, value);
      && Field(r, key) == value.GetOr("")
      && (forall f :: f != key ==> Field(r, f) == Field(s, f))
      && r.rampa == s.rampa && r.bonificacion == s.bonificacion && r.activo == s.activo
      && r.empresa == s.empresa && r.empresaId == s.empresaId
  {
  }

  lemma SetChoiceChangesOneKey(s: Vehiculo, key: VehField, opt: Option<ChoiceOption>)
    ensures var r := SetChoice(s, key, opt);
      && Field(r, key) == (if opt.Some? then opt.value.key else "")
      && (forall f :: f != key ==> Field(r, f) == Field(s, f))
      && r.rampa == s.rampa && r.bonificacion == s.bonificacion && r.activo == s.activo
      && r.empresa == s.empresa && r.empresaId == s.empresaId
  {
    SetTextChangesOneKey(s, key, if opt.Some? then Some(opt.value.key) else None);
  }

  /** The ramp toggle stores `!!c`: always a strict boolean. */
  function ToggleRampa(s: Vehiculo, c: Option<bool>): (r: Vehiculo)
    ensures r.rampa.Some? && (r.rampa.value <==> IsTrue(c))
    ensures r == s.(rampa := r.rampa)
  {
    s.(rampa := Some(IsTrue(c)))
  }

  /** The bonus toggle stores `!!c` likewise. */
  function ToggleBonificacion(s: Vehiculo, c: Option<bool>): (r: Vehiculo)
    ensures r.bonificacion.Some? && (r.bonificacion.value <==> IsTrue(c))
    ensures r == s.(bonificacion := r.bonificacion)
  {
    s.(bonificacion := Some(IsTrue(c)))
  }

  // ---------------------------------------------------------------------------
  // Default temperature
  // ---------------------------------------------------------------------------

  /** The value the default fills in: the key of the first option reading
      "seco", else the literal "Seco". */
  function SecoValue(choices: Choices): string {
    var opts := Options(choices, "temperatura");
    var i := FindSeco(opts);
    if i.Some? then opts[i.value].key else "Seco"
  }

  /** The default-"Seco" effect: a blank temperature becomes `SecoValue`;
      any other value is left alone. */
  function DefaultTemperatura(s: Vehiculo, choices: Choices): Vehiculo {
    if Trim(Field(s, Temperatura)) != "" then s
    else s.(text := s.text[Temperatura := SecoValue(choices)])
  }

  /** What the default does: nothing to a non-blank temperature; otherwise
      the temperature becomes the first "seco" option's key, or "Seco", and
      nothing else changes. */
  lemma DefaultTemperaturaEffect(s: Vehiculo, choices: Choices)
    ensures var r := DefaultTemperatura(s, choices);
      var opts := Options(choices, "temperatura");
      && (Trim(Field(s, Temperatura)) != "" ==> r == s)
      && (Trim(Field(s, Temperatura)) == "" ==>
            && r == s.(text := r.text)
            && (forall f :: f != Temperatura ==> Field(r, f) == Field(s, f))
            && (FindSeco(opts).None? ==> Field(r, Temperatura) == "Seco")
            && (FindSeco(opts).Some? ==>
                  exists i :: 0 <= i < |opts| && Norm(opts[i].text) == "seco"
                    && Field(r, Temperatura) == opts[i].key
                    && forall j :: 0 <= j < i ==> Norm(opts[j].text) != "seco"))
  {
    var opts := Options(choices, "temperatura");
    var i := FindSeco(opts);
    if i.Some? && Trim(Field(s, Temperatura)) == "" {
      assert Field(DefaultTemperatura(s, choices), Temperatura) == opts[i.value].key;
    }
  }

  /** Once filled in with a non-blank value, the default does not fire
      again. */
  lemma DefaultTemperaturaIdempotent(s: Vehiculo, choices: Choices)
    requires Trim(SecoValue(choices)) != ""
    ensures DefaultTemperatura(DefaultTemperatura(s, choices), choices) == DefaultTemperatura(s, choices)
  {
  }

  // ---------------------------------------------------------------------------
  // Visibility
  // ---------------------------------------------------------------------------

  /** `showTipoTemperatura`: the displayed text of the stored temperature
      (its option's text, or the raw value when no option has that key), or
      the raw value itself, normalises to exactly "con temperatura". */
  function ShowTipoTemperatura(v: Vehiculo, choices: Choices): bool {
    var raw := Field(v, Temperatura);
    var opts := Options(choices, "temperatura");
    var i := FindKey(opts, raw);
    var text := if i.Some? then opts[i.value].text else raw;
    Norm(text) == "con temperatura" || Norm(raw) == "con temperatura"
  }

  /** `showCapacidadOtros`: the capacity text starts with "otro" once
      normalised; the key is looked up among the options only when the
      capacity column is a choice column. */
  function ShowCapacidadOtros(v: Vehiculo, choices: Choices, capacidadIsChoice: bool): bool {
    var raw := Field(v, Capacidad);
    var opts := Options(choices, "capacidad");
    var i := if capacidadIsChoice then FindKey(opts, raw) else None;
    var text := if i.Some? then opts[i.value].text else raw;
    var n := Norm(text);
    n == "otro" || n == "otros" || StartsWith(n, "otro")
  }

  /** The type-of-temperature field shows whenever the stored value itself
      reads "con temperatura"; otherwise only when the value is the key of
      an option whose text reads so, the first option of that key deciding.
      With no option of that key only the stored value counts. */
  lemma TipoTemperaturaShown(v: Vehiculo, choices: Choices)
    ensures var raw, opts := Field(v, Temperatura), Options(choices, "temperatura");
      && (Norm(raw) == "con temperatura" ==> ShowTipoTemperatura(v, choices))
      && ((forall j :: 0 <= j < |opts| ==> opts[j].key != raw) ==>
            (ShowTipoTemperatura(v, choices) <==> Norm(raw) == "con temperatura"))
      && (ShowTipoTemperatura(v, choices) ==>
            Norm(raw) == "con temperatura"
            || exists j :: 0 <= j < |opts| && opts[j].key == raw && Norm(opts[j].text) == "con temperatura")
  {
  }

  /** The "otros" field shows exactly when the capacity's displayed text
      starts with "otro" once normalised; the stored key stands for itself
      when the capacity column is not a choice column or no option has it. */
  lemma CapacidadOtrosShown(v: Vehiculo, choices: Choices, capacidadIsChoice: bool)
    ensures var raw, opts := Field(v, Capacidad), Options(choices, "capacidad");
      && (!capacidadIsChoice ==> (ShowCapacidadOtros(v, choices, false) <==> StartsWith(Norm(raw), "otro")))
      && ((forall j :: 0 <= j < |opts| ==> opts[j].key != raw) ==>
            (ShowCapacidadOtros(v, choices, capacidadIsChoice) <==> StartsWith(Norm(raw), "otro")))
      && (ShowCapacidadOtros(v, choices, capacidadIsChoice) ==>
            StartsWith(Norm(raw), "otro")
            || exists j :: 0 <= j < |opts| && opts[j].key == raw && StartsWith(Norm(opts[j].text), "otro"))
  {
    var raw, opts := Field(v, Capacidad), Options(choices, "capacidad");
    var i := if capacidadIsChoice then FindKey(opts, raw) else None;
    var text := if i.Some? then opts[i.value].text else raw;
    OtroTestsArePrefixTest(Norm(text));
  }

  /** The three tests of `showCapacidadOtros` amount to the prefix test:
      "otro" and "otros" both start with "otro". */
  lemma OtroTestsArePrefixTest(n: string)
    ensures (n == "otro" || n == "otros" || StartsWith(n, "otro")) <==> StartsWith(n, "otro")
  {
    if n == "otros" {
      assert n[..4] == "otro";
    }
  }

  /** Ramp length and width are shown while the ramp toggle is on. */
  predicate ShowRampaFields(v: Vehiculo) {
    IsTrue(v.rampa)
  }

  /** The resolution number is shown while the bonus toggle is on. */
  predicate ShowNroResolucion(v: Vehiculo) {
    IsTrue(v.bonificacion)
  }

  /** Toggling shows or hides the dependent fields and changes nothing
      else the section shows. */
  lemma TogglesControlFields(s: Vehiculo, c: Option<bool>)
    ensures ShowRampaFields(ToggleRampa(s, c)) <==> IsTrue(c)
    ensures ShowNroResolucion(ToggleBonificacion(s, c)) <==> IsTrue(c)
    ensures ShowNroResolucion(ToggleRampa(s, c)) == ShowNroResolucion(s)
    ensures ShowRampaFields(ToggleBonificacion(s, c)) == ShowRampaFields(s)
  {
  }
}
