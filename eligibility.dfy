/** Which certificates a vehicle needs, decided from its normalised unit
    type, temperature and bonus flag. Two kinds are aliases of others:
    sanipes is required exactly when termoking is, limpieza exactly when
    fumigación is. */
module Requisitos {
  import opened Wrappers
  import opened Text
  import opened Vehiculos

  predicate IsConTemperatura(t: string) {
    t == "con temperatura" || t == "con_temperatura" || t == "contemperatura"
  }

  predicate IsCamionOCarreta(u: string) {
    u == "camion" || u == "carreta"
  }

  /** `cumpleRequisitosResolucionBonificacion`: only ever asked of a unit
      that also needs fumigation. */
  predicate CumpleResolucionBonificacion(v: Vehiculo): (r: bool)
    ensures r ==> CumpleFumigacion(v)
  {
    IsTrue(v.bonificacion) && Norm(Field(v, TipoUnidad)) == "carreta"
  }

  /** `cumpleRequisitosTermoking`, also used as `cumpleRequisitosSanipes`:
      only ever asked of a unit that also needs fumigation. */
  predicate CumpleTermoking(v: Vehiculo): (r: bool)
    ensures r ==> CumpleFumigacion(v)
  {
    IsConTemperatura(Norm(Field(v, Temperatura))) && IsCamionOCarreta(Norm(Field(v, TipoUnidad)))
  }

  /** `cumpleRequisitosFumigacion`, also used as `cumpleRequisitosLimpieza` */
  predicate CumpleFumigacion(v: Vehiculo) {
    IsCamionOCarreta(Norm(Field(v, TipoUnidad)))
  }

  /** The five `show*` flags handed to the document sections. */
  datatype ShowFlags = ShowFlags(
    resBonificacion: bool, termoking: bool, sanipes: bool, fumigacion: bool, limpieza: bool)

  function Flags(v: Vehiculo): (f: ShowFlags)
    ensures f.sanipes == f.termoking && f.limpieza == f.fumigacion
    ensures f.termoking ==> f.fumigacion
    ensures f.resBonificacion ==> f.fumigacion
  {
    ShowFlags(CumpleResolucionBonificacion(v), CumpleTermoking(v), CumpleTermoking(v),
      CumpleFumigacion(v), CumpleFumigacion(v))
  }

  /** The decision ignores the letter case of the unit type and of the
      temperature. */
  lemma FlagsIgnoreCase(v: Vehiculo, w: Vehiculo)
    requires v.bonificacion == w.bonificacion
    requires Lower(Field(v, TipoUnidad)) == Lower(Field(w, TipoUnidad))
    requires Lower(Field(v, Temperatura)) == Lower(Field(w, Temperatura))
    ensures Flags(v) == Flags(w)
  {
    NormIgnoresCase(Field(v, TipoUnidad));
    NormIgnoresCase(Field(w, TipoUnidad));
    NormIgnoresCase(Field(v, Temperatura));
    NormIgnoresCase(Field(w, Temperatura));
  }

  /** The decision ignores white space around the unit type. */
  lemma FlagsIgnoreSpaceAroundUnit(v: Vehiculo, w: Vehiculo, c: char)
    requires IsJsSpace(c)
    requires w.bonificacion == v.bonificacion && Field(w, Temperatura) == Field(v, Temperatura)
    requires Field(w, TipoUnidad) == [c] + Field(v, TipoUnidad) + [c]
    ensures CumpleResolucionBonificacion(w) == CumpleResolucionBonificacion(v)
    ensures CumpleTermoking(w) == CumpleTermoking(v)
    ensures CumpleFumigacion(w) == CumpleFumigacion(v)
  {
    var u := Field(v, TipoUnidad);
    NormOfPadded(u, c);
    assert Norm(Field(w, TipoUnidad)) == Norm(u);
  }

  lemma NormOfPadded(u: string, c: char)
    requires IsJsSpace(c)
    ensures Norm([c] + u + [c]) == Norm(u)
  {
    NormIgnoresSurroundingSpace(u, c);
    NormIgnoresSurroundingSpace([c] + u, c);
  }

  /** The unit type is compared with its accents folded away: for text
      without combining marks, a unit needs fumigation exactly when its
      trimmed, lower-cased, unaccented text is "camion" or "carreta". */
  lemma UnitTypeFolded(v: Vehiculo)
    requires var u := Field(v, TipoUnidad); forall i :: 0 <= i < |u| ==> !IsCombiningMark(u[i])
    ensures CumpleFumigacion(v) <==> IsCamionOCarreta(Trim(Fold(Field(v, TipoUnidad))))
  {
    NormFolds(Field(v, TipoUnidad));
  }

  /** A unit typed "Camión" is a truck. */
  lemma AccentedCamion(v: Vehiculo)
    requires Field(v, TipoUnidad) == "Camión"
    ensures CumpleFumigacion(v)
  {
    NormCamion();
  }

  /** A truck never needs the bonus resolution, whatever its bonus flag;
      a trailer needs it exactly when the flag is set. */
  lemma BonificacionOnlyForCarreta(v: Vehiculo)
    ensures Norm(Field(v, TipoUnidad)) == "camion" ==> !CumpleResolucionBonificacion(v)
    ensures Norm(Field(v, TipoUnidad)) == "carreta" ==> (CumpleResolucionBonificacion(v) <==> IsTrue(v.bonificacion))
  {
  }
}
