/** The barometric sensor of SensorPresion.h: integer readings, summarised by
    their arithmetic mean. */
module Barometric {
  import opened Wrappers
  import opened LinkedList
  import opened SensorName

  const PresPorDefecto: string := "PRES-000"

  /** One visit of the mean lambda: (acumulador, cantidadDatos) after adding a reading. */
  function PasoMedia(acc: (int, int), medida: int): (int, int)
  {
    (acc.0 + medida, acc.1 + 1)
  }

  function Suma(s: seq<int>): int
  {
    if s == [] then 0 else s[0] + Suma(s[1..])
  }

  /** The arithmetic mean, as an exact fraction. */
  function Media(s: seq<int>): real
    requires s != []
  {
    Suma(s) as real / |s| as real
  }

  /** After the traversal acumulador holds the sum and cantidadDatos the count. */
  lemma {:induction false} AcumulaSumaYCuenta(acc: (int, int), s: seq<int>)
    ensures FoldL(PasoMedia, acc, s) == (acc.0 + Suma(s), acc.1 + |s|)
    decreases |s|
  {
    if s != [] {
      AcumulaSumaYCuenta(PasoMedia(acc, s[0]), s[1..]);
    }
  }

  /** `acumulador += medida` on a 32-bit int as the source writes it: None once a
      partial sum leaves the int range (signed overflow). */
  function Acumular32(acc: int, s: seq<int>): (r: Option<int>)
    ensures r.Some? && s != [] ==> IntMin <= r.value <= IntMax
    decreases |s|
  {
    if s == [] then Some(acc)
    else if acc + s[0] < IntMin || IntMax < acc + s[0] then None
    else Acumular32(acc + s[0], s[1..])
  }

  /** When no partial sum overflows, the 32-bit accumulator agrees with the exact sum. */
  lemma {:induction false} Acumular32Exacto(acc: int, s: seq<int>)
    requires Acumular32(acc, s).Some?
    ensures Acumular32(acc, s).value == acc + Suma(s)
    decreases |s|
  {
    if s != [] {
      Acumular32Exacto(acc + s[0], s[1..]);
    }
  }

  /** Repeating one positive reading overflows exactly when the total passes IntMax. */
  lemma {:induction false} Acumular32Constante(acc: int, c: int, s: seq<int>)
    requires 0 < c && 0 <= acc <= IntMax
    requires forall i :: 0 <= i < |s| ==> s[i] == c
    ensures Acumular32(acc, s).None? <==> IntMax < acc + |s| * c
    decreases |s|
  {
    if s != [] {
      assert |s| * c == (|s| - 1) * c + c;
      if acc + c <= IntMax {
        Acumular32Constante(acc + c, c, s[1..]);
      } else {
        assert (|s| - 1) * c >= 0;
      }
    }
  }

  /** 21195 readings of standard atmospheric pressure (101325 Pa) overflow the
      accumulator; 21194 do not. */
  lemma AcumuladorDesborda()
    ensures Acumular32(0, seq(21195, _ => 101325)).None?
    ensures Acumular32(0, seq(21194, _ => 101325)).Some?
  {
    Acumular32Constante(0, 101325, seq(21195, _ => 101325));
    Acumular32Constante(0, 101325, seq(21194, _ => 101325));
  }

  class SensorPresion {
    const base: SensorBase
    const registroMediciones: ListaSensor<int>

    ghost predicate Valid()
      reads this, base, base.nombre, registroMediciones, registroMediciones.Repr
    {
      && base.Valid()
      && registroMediciones.Valid()
      && base.nombre !in registroMediciones.Repr
    }

    ghost function Lecturas(): seq<int>
      reads this, registroMediciones
    {
      registroMediciones.Contents
    }

    function GetNombre(): (r: string)
      reads this, base, base.nombre
      requires base.Valid()
      ensures |r| <= MaxLongitud
    {
      base.GetNombre()
    }

    constructor (identificador: string)
      ensures Valid() && fresh(base) && fresh(base.nombre) && fresh(registroMediciones.Repr)
      ensures GetNombre() == NombreAlmacenado(identificador)
      ensures Lecturas() == []
    {
      base := new SensorBase(identificador);
      registroMediciones := new ListaSensor<int>();
    }

    /** The constructor with its default argument: the name is "PRES-000". */
    constructor Defecto()
      ensures Valid() && fresh(base) && fresh(base.nombre) && fresh(registroMediciones.Repr)
      ensures GetNombre() == PresPorDefecto
      ensures Lecturas() == []
    {
      base := new SensorBase(PresPorDefecto);
      registroMediciones := new ListaSensor<int>();
      NombreIntacto(PresPorDefecto);
    }

    method AgregarLectura(medida: int)
      requires Valid()
      modifies registroMediciones.Repr
      ensures Valid() && fresh(registroMediciones.Repr - old(registroMediciones.Repr))
      ensures Lecturas() == old(Lecturas()) + [medida]
      ensures GetNombre() == old(GetNombre())
    {
      registroMediciones.InsertarAlFinal(medida);
    }

    /** procesarLectura: None is the empty-history notice (no division by zero);
        otherwise the mean, summed without overflow. Reads the history only. */
    method ProcesarLectura() returns (media: Option<real>)
      requires Valid()
      ensures media.None? <==> Lecturas() == []
      ensures media.Some? ==> media.value == Media(Lecturas())
    {
      if registroMediciones.EstaVacia() {
        return None;
      }
      var acc := registroMediciones.Iterar(PasoMedia, (0, 0));
      AcumulaSumaYCuenta((0, 0), Lecturas());
      var (acumulador, cantidadDatos) := acc;
      return Some(acumulador as real / cantidadDatos as real);
    }

    method ImprimirInfo() returns (cantidad: int, datos: seq<int>)
      requires Valid()
      ensures cantidad == |Lecturas()|
      ensures datos == Lecturas()
    {
      cantidad := registroMediciones.GetTamanio();
      datos := [];
      if !registroMediciones.EstaVacia() {
        datos := registroMediciones.Iterar(Anotar, []);
        FoldLAnotar([], Lecturas());
      }
    }

    method GetHistorial() returns (h: ListaSensor<int>)
      requires Valid()
      ensures h == registroMediciones && h.Contents == Lecturas()
    {
      h := registroMediciones;
    }
  }

  /** The barometric aggregation of the readings 100, 102, 101 is 101.0. */
  lemma MediaEjemplo()
    ensures Media([100, 102, 101]) == 101.0
  {
    assert Suma([100, 102, 101]) == 303;
  }
}
