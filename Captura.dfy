/** The sensor registry of main.cpp: what one received line does to it
    (capturarDatosHardware), the serial capture loop that feeds it, and menu
    options 1 to 3. The registry is kept as a sequence of sensor values in
    insertion order, each tagged with its kind. */
module Ingestion {
  import opened Wrappers
  import opened SensorName
  import opened LineDecoder
  import opened Serial

  /** A registered sensor: its stored name and its history. */
  datatype Sensor =
    | Termico(nombre: string, temperaturas: seq<real>)
    | Barometrico(nombre: string, presiones: seq<int>)

  /** The registry and contadorLecturas. */
  datatype Estado = Estado(registro: seq<Sensor>, contador: int)

  /** The sensor the lookup visitor leaves selected: it visits every entry and
      keeps the last one whose name equals the identifier. */
  function UltimaCoincidencia(registro: seq<Sensor>, id: string): (r: Option<nat>)
    ensures r.Some? ==> r.value < |registro| && registro[r.value].nombre == id
    ensures r.Some? ==> forall j :: r.value < j < |registro| ==> registro[j].nombre != id
    ensures r.None? <==> forall j :: 0 <= j < |registro| ==> registro[j].nombre != id
  {
    if registro == [] then None
    else if registro[|registro| - 1].nombre == id then Some(|registro| - 1)
    else UltimaCoincidencia(registro[..|registro| - 1], id)
  }

  /** Every stored name is what a 50-byte name buffer can hold. */
  predicate NombresValidos(registro: seq<Sensor>)
  {
    forall i :: 0 <= i < |registro| ==> |registro[i].nombre| <= MaxLongitud && NUL !in registro[i].nombre
  }

  /** A sensor of the measurement's kind, created for an unseen identifier with
      that first reading. */
  function Nuevo(id: string, m: Medicion): Sensor
  {
    match m
    case Temperatura(t) => Termico(NombreAlmacenado(id), [t])
    case Presion(p) => Barometrico(NombreAlmacenado(id), [p])
  }

  /** The dynamic_cast to the measurement's sensor class succeeds. */
  predicate MismoTipo(s: Sensor, m: Medicion)
  {
    s.Termico? <==> m.Temperatura?
  }

  /** agregarLectura on the sensor. */
  function Agregar(s: Sensor, m: Medicion): (r: Sensor)
    requires MismoTipo(s, m)
    ensures r.nombre == s.nombre && r.Termico? == s.Termico?
  {
    match m
    case Temperatura(t) => s.(temperaturas := s.temperaturas + [t])
    case Presion(p) => s.(presiones := s.presiones + [p])
  }

  /** The registry after a decoded measurement for `id`. */
  function Registrar(registro: seq<Sensor>, id: string, m: Medicion): seq<Sensor>
  {
    match UltimaCoincidencia(registro, id)
    case None => registro + [Nuevo(id, m)]
    case Some(i) => if MismoTipo(registro[i], m) then registro[i := Agregar(registro[i], m)] else registro
  }

  /** One iteration of the capture loop that received `linea`. */
  function Paso(e: Estado, linea: string): (r: Estado)
    ensures r.contador == e.contador || r.contador == e.contador + 1
    ensures |e.registro| <= |r.registro| <= |e.registro| + 1
  {
    if EsMensajeDeSistema(linea) then e
    else
      match Decodificar(linea)
      case Failure(_) => e
      case Success(Lectura(id, m)) => Estado(Registrar(e.registro, id, m), e.contador + 1)
  }

  /** The capture loop over the lines received, in order. */
  function Ejecutar(e: Estado, lineas: seq<string>): (r: Estado)
    ensures e.contador <= r.contador <= e.contador + |lineas|
    ensures |e.registro| <= |r.registro| <= |e.registro| + |lineas|
    decreases |lineas|
  {
    if lineas == [] then e else Ejecutar(Paso(e, lineas[0]), lineas[1..])
  }

  lemma {:induction false} EjecutarConcat(e: Estado, a: seq<string>, b: seq<string>)
    ensures Ejecutar(e, a + b) == Ejecutar(Ejecutar(e, a), b)
    decreases |a|
  {
    if a != [] {
      assert (a + b)[0] == a[0];
      assert (a + b)[1..] == a[1..] + b;
      EjecutarConcat(Paso(e, a[0]), a[1..], b);
    } else {
      assert a + b == b;
    }
  }

  /** The lines the capture loop hands over, given what successive reads return:
      each call of leerLinea that yields a line contributes it; a read error ends
      that call without a line and the loop calls again. */
  function LineasRecibidas(ev: seq<ReadResult>): (r: seq<string>)
    ensures |r| <= |ev|
    ensures forall k :: 0 <= k < |r| ==> r[k] != [] && NoTerminators(r[k])
    decreases |ev|
  {
    var f := Frame(ev, []);
    if f.outcome == StillWaiting then []
    else if f.outcome == LineReady then
      LineaSinTerminadores(ev);
      [f.linea] + LineasRecibidas(ev[f.consumidos..])
    else LineasRecibidas(ev[f.consumidos..])
  }

  // ---- What one line does ----

  /** A line is counted exactly when it is not a banner and decodes; a line that
      is not counted leaves the registry as it was. */
  lemma PasoCuenta(e: Estado, linea: string)
    ensures var ok := !EsMensajeDeSistema(linea) && Decodificar(linea).Success?;
      && (ok ==> Paso(e, linea).contador == e.contador + 1)
      && (!ok ==> Paso(e, linea) == e)
  {
  }

  /** The banner filter drops exactly the empty lines and the lines in which
      "===", "Arduino" or "Formato" occurs; every other line that decodes counts. */
  lemma PasoFiltro(e: Estado, linea: string)
    ensures (|| linea == []
             || (exists i: nat :: OccursAt(linea, "===", i))
             || (exists i: nat :: OccursAt(linea, "Arduino", i))
             || (exists i: nat :: OccursAt(linea, "Formato", i)))
            ==> Paso(e, linea) == e
    ensures (&& linea != []
             && (forall i: nat :: !OccursAt(linea, "===", i))
             && (forall i: nat :: !OccursAt(linea, "Arduino", i))
             && (forall i: nat :: !OccursAt(linea, "Formato", i))
             && Decodificar(linea).Success?)
            ==> Paso(e, linea).contador == e.contador + 1
  {
    ContainsSiPosicion(linea, "===");
    ContainsSiPosicion(linea, "Arduino");
    ContainsSiPosicion(linea, "Formato");
  }

  /** A start-up banner in the middle of a line is dropped. */
  lemma PasoEjemploBanner(e: Estado)
    ensures Paso(e, "Sensor Arduino listo") == e
  {
    assert OccursAt("Sensor Arduino listo", "Arduino", 7);
    PasoFiltro(e, "Sensor Arduino listo");
  }

  /** An identifier not yet registered gets a new sensor at the end holding the
      first reading. */
  lemma PasoCrea(registro: seq<Sensor>, id: string, m: Medicion)
    requires forall j :: 0 <= j < |registro| ==> registro[j].nombre != id
    ensures Registrar(registro, id, m) == registro + [Nuevo(id, m)]
  {
  }

  /** A registered identifier of the same kind gets the reading appended to its
      last matching sensor, and every other entry stays as it was. */
  lemma PasoActualiza(registro: seq<Sensor>, id: string, m: Medicion)
    requires UltimaCoincidencia(registro, id).Some?
    requires MismoTipo(registro[UltimaCoincidencia(registro, id).value], m)
    ensures var i := UltimaCoincidencia(registro, id).value;
      Registrar(registro, id, m) == registro[i := Agregar(registro[i], m)]
  {
  }

  /** A registered identifier of the other kind: the reading is dropped. */
  lemma PasoTipoDistinto(registro: seq<Sensor>, id: string, m: Medicion)
    requires UltimaCoincidencia(registro, id).Some?
    requires !MismoTipo(registro[UltimaCoincidencia(registro, id).value], m)
    ensures Registrar(registro, id, m) == registro
  {
  }

  lemma RegistrarPreservaNombres(registro: seq<Sensor>, id: string, m: Medicion)
    requires NombresValidos(registro)
    ensures NombresValidos(Registrar(registro, id, m))
  {
    var r := Registrar(registro, id, m);
    forall i | 0 <= i < |r|
      ensures |r[i].nombre| <= MaxLongitud && NUL !in r[i].nombre
    {
      if i < |registro| {
        assert r[i].nombre == registro[i].nombre;
      }
    }
  }

  /** Stored names always fit the name buffer, however many lines arrive. */
  lemma {:induction false} EjecutarPreservaNombres(e: Estado, lineas: seq<string>)
    requires NombresValidos(e.registro)
    ensures NombresValidos(Ejecutar(e, lineas).registro)
    decreases |lineas|
  {
    if lineas != [] {
      var e' := Paso(e, lineas[0]);
      if !EsMensajeDeSistema(lineas[0]) && Decodificar(lineas[0]).Success? {
        var l := Decodificar(lineas[0]).value;
        RegistrarPreservaNombres(e.registro, l.identificador, l.medicion);
      }
      EjecutarPreservaNombres(e', lineas[1..]);
    }
  }

  /** An identifier longer than 49 characters, or one holding a NUL, is never
      found again, because the stored name differs from it: every line for it
      appends another new sensor. */
  lemma IdentificadorNoAlmacenable(registro: seq<Sensor>, id: string, m: Medicion)
    requires NombresValidos(registro)
    requires |id| > MaxLongitud || NUL in id
    ensures Registrar(registro, id, m) == registro + [Nuevo(id, m)]
    ensures Nuevo(id, m).nombre != id
  {
    NombreIntacto(id);
  }

  /** For an identifier that fits, two readings of the same kind create one
      sensor holding both, in arrival order. */
  lemma CreacionUnica(registro: seq<Sensor>, id: string, m1: Medicion, m2: Medicion)
    requires forall j :: 0 <= j < |registro| ==> registro[j].nombre != id
    requires |id| <= MaxLongitud && NUL !in id
    requires m1.Temperatura? == m2.Temperatura?
    ensures |Registrar(Registrar(registro, id, m1), id, m2)| == |registro| + 1
    ensures Registrar(Registrar(registro, id, m1), id, m2)
         == registro + [Agregar(Nuevo(id, m1), m2)]
  {
    NombreIntacto(id);
    var r1 := Registrar(registro, id, m1);
    assert r1 == registro + [Nuevo(id, m1)];
    assert UltimaCoincidencia(r1, id) == Some(|registro|);
  }

  /** Readings of one identifier keep their arrival order: after thermal
      readings ts for the identifier of a registered thermal sensor, that
      sensor's history has grown by exactly ts, in order, and nothing else
      changed. */
  lemma {:induction false} HistorialEnOrden(registro: seq<Sensor>, i: nat, id: string, ts: seq<real>)
    requires i < |registro| && registro[i].Termico?
    requires UltimaCoincidencia(registro, id) == Some(i)
    ensures RegistrarTodas(registro, id, ts)
         == registro[i := registro[i].(temperaturas := registro[i].temperaturas + ts)]
    decreases |ts|
  {
    if ts == [] {
      assert registro[i].temperaturas + ts == registro[i].temperaturas;
    } else {
      var s1 := Agregar(registro[i], Temperatura(ts[0]));
      var r1 := registro[i := s1];
      assert RegistrarTodas(registro, id, ts) == RegistrarTodas(r1, id, ts[1..]) by {
        PasoActualiza(registro, id, Temperatura(ts[0]));
      }
      assert RegistrarTodas(r1, id, ts[1..]) == r1[i := r1[i].(temperaturas := r1[i].temperaturas + ts[1..])] by {
        MismaCoincidencia(registro, i, id, s1);
        HistorialEnOrden(r1, i, id, ts[1..]);
      }
      assert r1[i := r1[i].(temperaturas := r1[i].temperaturas + ts[1..])]
          == registro[i := registro[i].(temperaturas := registro[i].temperaturas + ts)] by {
        assert s1.temperaturas + ts[1..] == registro[i].temperaturas + ts;
      }
    }
  }

  /** Thermal readings ts for `id`, applied one after the other. */
  function RegistrarTodas(registro: seq<Sensor>, id: string, ts: seq<real>): seq<Sensor>
    decreases |ts|
  {
    if ts == [] then registro else RegistrarTodas(Registrar(registro, id, Temperatura(ts[0])), id, ts[1..])
  }

  /** Pressure readings for a registered pressure sensor extend its history by
      exactly those readings, in arrival order; nothing else changes. */
  lemma {:induction false} HistorialPresionEnOrden(registro: seq<Sensor>, i: nat, id: string, ps: seq<int>)
    requires i < |registro| && registro[i].Barometrico?
    requires UltimaCoincidencia(registro, id) == Some(i)
    ensures RegistrarPresiones(registro, id, ps)
         == registro[i := registro[i].(presiones := registro[i].presiones + ps)]
    decreases |ps|
  {
    if ps == [] {
      assert registro[i].presiones + ps == registro[i].presiones;
    } else {
      var s1 := Agregar(registro[i], Presion(ps[0]));
      var r1 := registro[i := s1];
      assert RegistrarPresiones(registro, id, ps) == RegistrarPresiones(r1, id, ps[1..]) by {
        PasoActualiza(registro, id, Presion(ps[0]));
      }
      assert RegistrarPresiones(r1, id, ps[1..]) == r1[i := r1[i].(presiones := r1[i].presiones + ps[1..])] by {
        MismaCoincidencia(registro, i, id, s1);
        HistorialPresionEnOrden(r1, i, id, ps[1..]);
      }
      assert r1[i := r1[i].(presiones := r1[i].presiones + ps[1..])]
          == registro[i := registro[i].(presiones := registro[i].presiones + ps)] by {
        assert s1.presiones + ps[1..] == registro[i].presiones + ps;
      }
    }
  }

  /** Pressure readings ps for `id`, applied one after the other. */
  function RegistrarPresiones(registro: seq<Sensor>, id: string, ps: seq<int>): seq<Sensor>
    decreases |ps|
  {
    if ps == [] then registro else RegistrarPresiones(Registrar(registro, id, Presion(ps[0])), id, ps[1..])
  }

  /** Updating the selected sensor in place keeps it selected. */
  lemma MismaCoincidencia(registro: seq<Sensor>, i: nat, id: string, s: Sensor)
    requires i < |registro| && UltimaCoincidencia(registro, id) == Some(i)
    requires s.nombre == registro[i].nombre
    ensures UltimaCoincidencia(registro[i := s], id) == Some(i)
  {
    var r := registro[i := s];
    var k := UltimaCoincidencia(r, id);
    assert r[i].nombre == id;
    assert k.Some?;
    assert k.value >= i;
    assert forall j :: i < j < |r| ==> r[j].nombre != id;
  }

  // ---- Menu options 1 to 3 ----

  /** Options 1 and 2 append a new empty sensor even when the code is already
      registered; for a code that fits, the newest sensor is the one later
      lookups select. */
  lemma RegistroDuplicado(registro: seq<Sensor>, codigo: string, s: Sensor)
    requires |codigo| <= MaxLongitud && NUL !in codigo
    requires s.nombre == NombreAlmacenado(codigo)
    ensures UltimaCoincidencia(registro + [s], codigo) == Some(|registro|)
  {
    NombreIntacto(codigo);
  }

  /** Option 3: the measurement typed in goes to the last sensor named `codigo`,
      as a float for a thermal sensor and as an int for a pressure sensor. */
  function CapturaManual(registro: seq<Sensor>, codigo: string, datoDecimal: real, datoEntero: int): (r: seq<Sensor>)
    ensures |r| == |registro|
    ensures forall j :: 0 <= j < |r| ==> r[j].nombre == registro[j].nombre && r[j].Termico? == registro[j].Termico?
  {
    match UltimaCoincidencia(registro, codigo)
    case None => registro
    case Some(i) =>
      registro[i := if registro[i].Termico? then Agregar(registro[i], Temperatura(datoDecimal))
                    else Agregar(registro[i], Presion(datoEntero))]
  }

  /** An unknown code changes nothing; a known one grows exactly the selected
      sensor's history by one reading of its own kind. */
  lemma CapturaManualEfecto(registro: seq<Sensor>, codigo: string, datoDecimal: real, datoEntero: int)
    ensures var r := CapturaManual(registro, codigo, datoDecimal, datoEntero);
      match UltimaCoincidencia(registro, codigo)
      case None => r == registro
      case Some(i) =>
        && |r| == |registro|
        && (registro[i].Termico? ==> r[i] == registro[i].(temperaturas := registro[i].temperaturas + [datoDecimal]))
        && (registro[i].Barometrico? ==> r[i] == registro[i].(presiones := registro[i].presiones + [datoEntero]))
        && forall j :: 0 <= j < |r| && j != i ==> r[j] == registro[j]
  {
  }

  /** Sensors keep their registration order: registering a, then b, then
      updating a leaves a first and b second. */
  lemma OrdenDeInsercion(a: string, b: string, m1: Medicion, m2: Medicion, m3: Medicion)
    requires |a| <= MaxLongitud && NUL !in a && |b| <= MaxLongitud && NUL !in b && a != b
    requires MismoTipo(Nuevo(a, m1), m3)
    ensures var r := Registrar(Registrar(Registrar([], a, m1), b, m2), a, m3);
      r == [Agregar(Nuevo(a, m1), m3), Nuevo(b, m2)]
  {
    NombreIntacto(a);
    NombreIntacto(b);
    var r1 := Registrar([], a, m1);
    assert r1 == [Nuevo(a, m1)] by {
      PasoCrea([], a, m1);
    }
    var r2 := Registrar(r1, b, m2);
    assert r2 == [Nuevo(a, m1), Nuevo(b, m2)] by {
      PasoCrea(r1, b, m2);
    }
    assert UltimaCoincidencia(r2, a) == Some(0);
    PasoActualiza(r2, a, m3);
  }

  /** The registry the program builds, with contadorLecturas of the running capture. */
  class Plataforma {
    var registro: seq<Sensor>

    constructor ()
      ensures registro == []
    {
      registro := [];
    }

    /** The lookup visitor passed to iterar: visits every entry in order and
        keeps the last whose name equals `codigo`. */
    method Localizar(codigo: string) returns (existente: Option<nat>)
      ensures existente == UltimaCoincidencia(registro, codigo)
    {
      existente := None;
      var i := 0;
      while i < |registro|
        invariant 0 <= i <= |registro|
        invariant existente == UltimaCoincidencia(registro[..i], codigo)
      {
        assert registro[..i + 1][..i] == registro[..i];
        if registro[i].nombre == codigo {
          existente := Some(i);
        }
        i := i + 1;
      }
      assert registro[..i] == registro;
    }

    /** Option 1. */
    method RegistrarTermico(codigo: string)
      modifies this
      ensures registro == old(registro) + [Termico(NombreAlmacenado(codigo), [])]
    {
      registro := registro + [Termico(NombreAlmacenado(codigo), [])];
    }

    /** Option 2. */
    method RegistrarPresion(codigo: string)
      modifies this
      ensures registro == old(registro) + [Barometrico(NombreAlmacenado(codigo), [])]
    {
      registro := registro + [Barometrico(NombreAlmacenado(codigo), [])];
    }

    /** Option 3, with the value the user would type for each kind. */
    method CapturarMedicion(codigo: string, datoDecimal: real, datoEntero: int) returns (localizado: bool)
      modifies this
      ensures localizado <==> UltimaCoincidencia(old(registro), codigo).Some?
      ensures registro == CapturaManual(old(registro), codigo, datoDecimal, datoEntero)
    {
      var dispositivo := Localizar(codigo);
      if dispositivo.None? {
        return false;
      }
      var i := dispositivo.value;
      if registro[i].Termico? {
        registro := registro[i := Agregar(registro[i], Temperatura(datoDecimal))];
      } else {
        registro := registro[i := Agregar(registro[i], Presion(datoEntero))];
      }
      return true;
    }

    /** The body of the capture loop for a line leerLinea returned. */
    method ProcesarLinea(buffer: string, contador: int) returns (contadorOut: int)
      modifies this
      ensures Estado(registro, contadorOut) == Paso(Estado(old(registro), contador), buffer)
    {
      if EsMensajeDeSistema(buffer) {
        return contador;
      }
      var cabecera := Encabezado(buffer);
      if cabecera.None? {
        return contador;
      }
      var (tipo, identificador, resto) := cabecera.value;
      var existente := Localizar(identificador);
      var medicion: Medicion;
      if tipo == 'T' || tipo == 't' {
        var v := ReadFloat(resto);
        if v.None? {
          return contador;
        }
        medicion := Temperatura(v.value);
      } else if tipo == 'P' || tipo == 'p' {
        var v := ReadInt(resto);
        if v.None? {
          return contador;
        }
        medicion := Presion(v.value);
      } else {
        return contador;
      }
      if existente.None? {
        registro := registro + [Nuevo(identificador, medicion)];
      } else if MismoTipo(registro[existente.value], medicion) {
        registro := registro[existente.value := Agregar(registro[existente.value], medicion)];
      }
      contadorOut := contador + 1;
    }

    /** The capture loop over a finite list of received lines. */
    method ProcesarLineas(lineas: seq<string>, contador: int) returns (contadorOut: int)
      modifies this
      ensures Estado(registro, contadorOut) == Ejecutar(Estado(old(registro), contador), lineas)
    {
      contadorOut := contador;
      var i := 0;
      while i < |lineas|
        invariant 0 <= i <= |lineas|
        invariant Ejecutar(Estado(registro, contadorOut), lineas[i..]) == Ejecutar(Estado(old(registro), contador), lineas)
      {
        assert lineas[i..][1..] == lineas[i + 1..];
        contadorOut := ProcesarLinea(lineas[i], contadorOut);
        i := i + 1;
      }
    }

    /** capturarDatosHardware: open the port at 9600 baud (resultadoOpen is what
        open() returns) and process every line the read results `lecturas`
        deliver. A failed open leaves the registry untouched. */
    method CapturarDatosHardware(resultadoOpen: int, lecturas: seq<ReadResult>) returns (contador: int)
      modifies this
      ensures resultadoOpen < 0 ==> registro == old(registro) && contador == 0
      ensures resultadoOpen >= 0 ==>
        Estado(registro, contador) == Ejecutar(Estado(old(registro), 0), LineasRecibidas(lecturas))
    {
      var conexion := new SerialPort();
      var ok := conexion.Abrir(9600, resultadoOpen);
      contador := 0;
      if !ok {
        return;
      }
      var buffer := "";
      var pendientes := lecturas;
      while pendientes != []
        invariant conexion.estadoConexion && conexion.descriptorArchivo >= 0
        invariant Ejecutar(Estado(registro, contador), LineasRecibidas(pendientes))
               == Ejecutar(Estado(old(registro), 0), LineasRecibidas(lecturas))
        decreases |pendientes|
      {
        var r;
        var antes := pendientes;
        r, buffer, pendientes := conexion.LeerLinea(buffer, pendientes);
        if r == LineReady {
          assert LineasRecibidas(antes) == [buffer] + LineasRecibidas(pendientes);
          assert ([buffer] + LineasRecibidas(pendientes))[1..] == LineasRecibidas(pendientes);
          contador := ProcesarLinea(buffer, contador);
        }
      }
    }
  }
}
