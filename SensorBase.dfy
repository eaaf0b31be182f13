/** The sensor identity of SensorBase.h: a fixed 50-character buffer filled by
    strncpy with at most 49 characters and always NUL-terminated. */
module SensorName {
  import opened Wrappers

  const NUL: char := '\0'
  /** Size of `char nombre[50]`. */
  const Capacidad: nat := 50
  /** Characters strncpy may copy: the last slot is reserved for NUL. */
  const MaxLongitud: nat := 49
  const IdentificadorPorDefecto: string := "DISPOSITIVO"

  /** The C string a character sequence denotes: what precedes its first NUL. */
  function CString(s: seq<char>): (r: seq<char>)
    ensures r <= s
    ensures NUL !in r
    ensures |r| < |s| ==> s[|r|] == NUL
  {
    if s == [] || s[0] == NUL then []
    else
      var t := CString(s[1..]);
      assert s == [s[0]] + s[1..];
      [s[0]] + t
  }

  /** A NUL at position k bounds the C string to fewer than k + 1 characters. */
  lemma CStringBound(s: seq<char>, k: nat)
    requires k < |s| && s[k] == NUL
    ensures |CString(s)| <= k
  {
    var r := CString(s);
    if |r| > k {
      assert r[k] == s[k];
    }
  }

  /** A NUL-free prefix followed by the end or by a NUL is the whole C string. */
  lemma CStringExact(s: seq<char>, k: nat)
    requires k <= |s| && NUL !in s[..k]
    requires k == |s| || s[k] == NUL
    ensures CString(s) == s[..k]
  {
  }

  /** The 50 characters strncpy(nombre, id, 49) followed by nombre[49] = '\0' leave. */
  function BufferNombre(identificador: string): (b: seq<char>)
    ensures |b| == Capacidad && b[MaxLongitud] == NUL
  {
    var c := CString(identificador);
    seq(Capacidad, i requires 0 <= i < Capacidad =>
      if i < MaxLongitud && i < |c| then c[i] else NUL)
  }

  /** The name getNombre() returns for a sensor built from identificador. */
  function NombreAlmacenado(identificador: string): (r: string)
    ensures |r| <= MaxLongitud && NUL !in r
  {
    var b := BufferNombre(identificador);
    CStringBound(b, MaxLongitud);
    CString(b)
  }

  /** The stored name is the first min(len, 49) characters of the identifier's C string. */
  lemma {:induction false} NombreEsPrefijo(identificador: string)
    ensures NombreAlmacenado(identificador)
         == CString(identificador)[..Min(|CString(identificador)|, MaxLongitud)]
  {
    var c := CString(identificador);
    var b := BufferNombre(identificador);
    var k := Min(|c|, MaxLongitud);
    assert b[..k] == c[..k];
    assert NUL !in b[..k] by {
      forall i | 0 <= i < k ensures b[i] != NUL { assert b[i] == c[i]; }
    }
    CStringExact(b, k);
  }

  /** For an identifier without NUL, the stored name is its first min(len, 49) characters. */
  lemma NombreTruncado(identificador: string)
    requires NUL !in identificador
    ensures NombreAlmacenado(identificador) == identificador[..Min(|identificador|, MaxLongitud)]
  {
    CStringExact(identificador, |identificador|);
    NombreEsPrefijo(identificador);
  }

  /** The stored name equals the identifier exactly when the identifier has at
      most 49 characters and no NUL. */
  lemma NombreIntacto(identificador: string)
    ensures NombreAlmacenado(identificador) == identificador
        <==> |identificador| <= MaxLongitud && NUL !in identificador
  {
    if NUL !in identificador {
      NombreTruncado(identificador);
    }
  }

  /** strncpy(destino, origen, n) where origen is the C string of a std::string:
      copies up to n characters, stopping at the first NUL, and pads with NUL. */
  method Strncpy(destino: array<char>, origen: string, n: nat)
    requires n <= destino.Length
    modifies destino
    ensures forall i :: 0 <= i < n ==>
      destino[i] == if i < |CString(origen)| then CString(origen)[i] else NUL
    ensures forall i :: n <= i < destino.Length ==> destino[i] == old(destino[i])
  {
    var i := 0;
    while i < n && i < |origen| && origen[i] != NUL
      invariant 0 <= i <= n && i <= |origen|
      invariant NUL !in origen[..i]
      invariant forall j :: 0 <= j < i ==> destino[j] == origen[j]
      invariant forall j :: i <= j < destino.Length ==> destino[j] == old(destino[j])
    {
      destino[i] := origen[i];
      assert origen[..i + 1] == origen[..i] + [origen[i]];
      i := i + 1;
    }
    ghost var c := CString(origen);
    if i < n {
      CStringExact(origen, i);
    } else {
      assert origen[..i] <= origen;
      assert |c| >= i;
    }
    assert forall j :: 0 <= j < i ==> j < |c| && c[j] == origen[j];
    ghost var copiados := i;
    while i < n
      invariant copiados <= i <= n
      invariant forall j :: 0 <= j < copiados ==> destino[j] == origen[j]
      invariant forall j :: copiados <= j < i ==> destino[j] == NUL
      invariant forall j :: i <= j < destino.Length ==> destino[j] == old(destino[j])
    {
      destino[i] := NUL;
      i := i + 1;
    }
  }

  /** The identity part common to every sensor. */
  class SensorBase {
    const nombre: array<char>

    ghost predicate Valid()
      reads this, nombre
    {
      nombre.Length == Capacidad && nombre[MaxLongitud] == NUL
    }

    constructor (identificador: string)
      ensures Valid() && fresh(nombre)
      ensures nombre[..] == BufferNombre(identificador)
      ensures GetNombre() == NombreAlmacenado(identificador)
    {
      nombre := new char[Capacidad];
      new;
      Strncpy(nombre, identificador, MaxLongitud);
      nombre[MaxLongitud] := NUL;
      assert nombre[..] == BufferNombre(identificador);
    }

    /** SensorBase() with the default argument: the name is "DISPOSITIVO". */
    constructor Defecto()
      ensures Valid() && fresh(nombre)
      ensures GetNombre() == IdentificadorPorDefecto
    {
      nombre := new char[Capacidad];
      new;
      Strncpy(nombre, IdentificadorPorDefecto, MaxLongitud);
      nombre[MaxLongitud] := NUL;
      assert nombre[..] == BufferNombre(IdentificadorPorDefecto);
      NombreIntacto(IdentificadorPorDefecto);
    }

    /** getNombre(): the NUL-terminated name, at most 49 characters. */
    function GetNombre(): (r: string)
      reads this, nombre
      requires Valid()
      ensures |r| <= MaxLongitud && NUL !in r
    {
      CStringBound(nombre[..], MaxLongitud);
      CString(nombre[..])
    }
  }
}
