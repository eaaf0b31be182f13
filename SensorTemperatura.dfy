/** The thermal sensor of SensorTemperatura.h: real-valued readings, summarised
    by their minimum taken from a 999999.0 sentinel with strict `<`. */
module Thermal {
  import opened Wrappers
  import opened LinkedList
  import opened SensorName

  const TermPorDefecto: string := "TERM-000"
  /** Initial value of valorMinimo. */
  const Centinela: real := 999999.0

  /** One visit of the minimum lambda: keep the reading only when strictly smaller. */
  function PasoMinimo(minimo: real, medida: real): (r: real)
    ensures r <= minimo && r <= medida && (r == minimo || r == medida)
  {
    if medida < minimo then medida else minimo
  }

  /** The traversal result never exceeds the start value nor any reading. */
  lemma {:induction false} MinimoCota(inicial: real, s: seq<real>)
    ensures FoldL(PasoMinimo, inicial, s) <= inicial
    ensures forall i :: 0 <= i < |s| ==> FoldL(PasoMinimo, inicial, s) <= s[i]
    decreases |s|
  {
    if s != [] {
      MinimoCota(PasoMinimo(inicial, s[0]), s[1..]);
      assert forall i :: 1 <= i < |s| ==> s[i] == s[1..][i - 1];
    }
  }

  /** The traversal result is the start value or one of the readings. */
  lemma {:induction false} MinimoPertenece(inicial: real, s: seq<real>)
    ensures FoldL(PasoMinimo, inicial, s) == inicial || FoldL(PasoMinimo, inicial, s) in s
    decreases |s|
  {
    if s != [] {
      MinimoPertenece(PasoMinimo(inicial, s[0]), s[1..]);
      assert s == [s[0]] + s[1..];
    }
  }

  /** With some reading below the sentinel the computed value is the true minimum;
      with none it is the sentinel. */
  lemma MinimoVerdadero(s: seq<real>)
    requires s != []
    ensures (exists i :: 0 <= i < |s| && s[i] < Centinela) ==>
              FoldL(PasoMinimo, Centinela, s) in s
    ensures forall i :: 0 <= i < |s| ==> FoldL(PasoMinimo, Centinela, s) <= s[i]
    ensures (forall i :: 0 <= i < |s| ==> Centinela <= s[i]) ==>
              FoldL(PasoMinimo, Centinela, s) == Centinela
  {
    MinimoCota(Centinela, s);
    MinimoPertenece(Centinela, s);
  }

  class SensorTemperatura {
    /** The SensorBase part. */
    const base: SensorBase
    /** registroMediciones, owned by this sensor. */
    const registroMediciones: ListaSensor<real>

    ghost predicate Valid()
      reads this, base, base.nombre, registroMediciones, registroMediciones.Repr
    {
      && base.Valid()
      && registroMediciones.Valid()
      && base.nombre !in registroMediciones.Repr
    }

    /** The readings in arrival order. */
    ghost function Lecturas(): seq<real>
      reads this, registroMediciones
    {
      registroMediciones.Contents
    }

    function GetNombre(): (r: string)
      reads this, base, base.nombre
      requires base.Valid()
      ensures |r| <= MaxLongitud
    {
      base.GetNombre()
    }

    constructor (identificador: string)
      ensures Valid() && fresh(base) && fresh(base.nombre) && fresh(registroMediciones.Repr)
      ensures GetNombre() == NombreAlmacenado(identificador)
      ensures Lecturas() == []
    {
      base := new SensorBase(identificador);
      registroMediciones := new ListaSensor<real>();
    }

    /** The constructor with its default argument: the name is "TERM-000". */
    constructor Defecto()
      ensures Valid() && fresh(base) && fresh(base.nombre) && fresh(registroMediciones.Repr)
      ensures GetNombre() == TermPorDefecto
      ensures Lecturas() == []
    {
      base := new SensorBase(TermPorDefecto);
      registroMediciones := new ListaSensor<real>();
      NombreIntacto(TermPorDefecto);
    }

    method AgregarLectura(medida: real)
      requires Valid()
      modifies registroMediciones.Repr
      ensures Valid() && fresh(registroMediciones.Repr - old(registroMediciones.Repr))
      ensures Lecturas() == old(Lecturas()) + [medida]
      ensures GetNombre() == old(GetNombre())
    {
      registroMediciones.InsertarAlFinal(medida);
    }

    /** procesarLectura: None is the empty-history notice; otherwise the
        minimum computed from the sentinel. Reads the history only. */
    method ProcesarLectura() returns (minimo: Option<real>)
      requires Valid()
      ensures minimo.None? <==> Lecturas() == []
      ensures minimo.Some? ==> minimo.value == FoldL(PasoMinimo, Centinela, Lecturas())
      ensures minimo.Some? ==> minimo.value <= Centinela
      ensures minimo.Some? ==> forall i :: 0 <= i < |Lecturas()| ==> minimo.value <= Lecturas()[i]
      ensures minimo.Some? ==> minimo.value == Centinela || minimo.value in Lecturas()
    {
      if registroMediciones.EstaVacia() {
        return None;
      }
      var valorMinimo := registroMediciones.Iterar(PasoMinimo, Centinela);
      MinimoCota(Centinela, Lecturas());
      MinimoPertenece(Centinela, Lecturas());
      return Some(valorMinimo);
    }

    /** imprimirInfo without the formatting: the count shown and the readings listed. */
    method ImprimirInfo() returns (cantidad: int, datos: seq<real>)
      requires Valid()
      ensures cantidad == |Lecturas()|
      ensures datos == Lecturas()
    {
      cantidad := registroMediciones.GetTamanio();
      datos := [];
      if !registroMediciones.EstaVacia() {
        datos := registroMediciones.Iterar(Anotar, []);
        FoldLAnotar([], Lecturas());
      }
    }

    /** getHistorial: the sensor's own list, not a copy. */
    method GetHistorial() returns (h: ListaSensor<real>)
      requires Valid()
      ensures h == registroMediciones && h.Contents == Lecturas()
    {
      h := registroMediciones;
    }
  }

  /** An append made through getHistorial is seen by the sensor's later aggregation. */
  method AgregarPorHistorial(s: SensorTemperatura, medida: real) returns (minimo: Option<real>)
    requires s.Valid()
    modifies s.registroMediciones.Repr
    ensures s.Valid() && s.Lecturas() == old(s.Lecturas()) + [medida]
    ensures minimo.Some? && minimo.value <= medida
  {
    var h := s.GetHistorial();
    h.InsertarAlFinal(medida);
    minimo := s.ProcesarLectura();
    assert s.Lecturas()[|s.Lecturas()| - 1] == medida;
  }

  /** The thermal aggregation of the readings 25.5, 20.0, 30.0 is 20.0. */
  lemma MinimoEjemplo()
    ensures FoldL(PasoMinimo, Centinela, [25.5, 20.0, 30.0]) == 20.0
  {
  }
}
