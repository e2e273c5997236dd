/** The vehicle being edited by the registration form: its text columns,
    its two toggles and the company it belongs to. */
module Vehiculos {
  import opened Wrappers

  /** The vehicle's text-valued properties. */
  datatype VehField =
    | Placa | SOAT | Codigo | Marca | Modelo | Capacidad | Otros
    | LargoRampa | AnchoRampa | NroResolucion | MedidasInternas | MedidasExternas
    | AlturaPiso | PesoCargaUtil | PesoNeto | Temperatura | TipoTemperatura
    | TipoUnidad | CorreosNotificacion

  /** A text property is absent from `text` while it is `undefined`. The
      toggles and the company fields are absent (`None`) the same way. */
  datatype Vehiculo = Vehiculo(
    text: map<VehField, string>,
    rampa: Option<bool>,
    bonificacion: Option<bool>,
    activo: Option<bool>,
    empresa: Option<string>,
    empresaId: Option<int>)

  /** `vehiculo.F || ""`: the text of a property, `""` while it is absent. */
  function Field(v: Vehiculo, f: VehField): (r: string)
    ensures f in v.text ==> r == v.text[f]
    ensures f !in v.text ==> r == ""
  {
    if f in v.text then v.text[f] else ""
  }

  /** `!!b` for an optional boolean. */
  predicate IsTrue(b: Option<bool>) {
    b == Some(true)
  }

  /** The vehicle the form starts with: an empty plate, active, no ramp. */
  const Initial: Vehiculo :=
    Vehiculo(map[Placa := ""], Some(false), None, Some(true), None, None)
}
