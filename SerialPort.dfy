/** The serial port of SerialPort.h: open/closed state and the line framer
    `leerLinea` over the results of successive one-byte `read` calls. */
module Serial {

  /** What one `read(fd, &c, 1)` returns: a byte, zero bytes, or an error (< 0). */
  datatype ReadResult = Byte(c: char) | NoBytes | ReadError

  /** How a call to leerLinea ends. LineReady is `return true`; ReadFailed and
      PortClosed are `return false`; StillWaiting means the given read results
      ran out before the call returned (it would keep polling). */
  datatype Outcome = LineReady | ReadFailed | PortClosed | StillWaiting

  /** Outcome, the resulting string, and how many read results were consumed. */
  datatype Framed = Framed(outcome: Outcome, linea: string, consumidos: nat)

  const SupportedRates: set<int> := {9600, 19200, 38400, 57600, 115200}

  predicate IsTerminator(c: char)
  {
    c == '\n' || c == '\r'
  }

  predicate NoTerminators(s: string)
  {
    forall i :: 0 <= i < |s| ==> !IsTerminator(s[i])
  }

  /** The baud-rate switch of abrir: supported rates are kept, anything else is 9600. */
  function TasaBaudios(velocidad: int): (r: int)
    ensures r in SupportedRates
    ensures velocidad in SupportedRates ==> r == velocidad
    ensures velocidad !in SupportedRates ==> r == 9600
  {
    match velocidad
    case 9600 => 9600
    case 19200 => 19200
    case 38400 => 38400
    case 57600 => 57600
    case 115200 => 115200
    case _ => 9600
  }

  /** The data a single read result contributes to the line. */
  function DatoDe(r: ReadResult): string
  {
    if r.Byte? && !IsTerminator(r.c) then [r.c] else []
  }

  /** The non-terminator bytes among some read results, in order. */
  function Datos(ev: seq<ReadResult>): string
  {
    if ev == [] then [] else DatoDe(ev[0]) + Datos(ev[1..])
  }

  lemma {:induction false} DatosConcat(a: seq<ReadResult>, b: seq<ReadResult>)
    ensures Datos(a + b) == Datos(a) + Datos(b)
    decreases |a|
  {
    if a == [] {
      assert a + b == b;
    } else {
      assert (a + b)[0] == a[0];
      assert (a + b)[1..] == a[1..] + b;
      DatosConcat(a[1..], b);
    }
  }

  lemma DatosSinTerminadores(ev: seq<ReadResult>)
    ensures NoTerminators(Datos(ev))
    decreases |ev|
  {
    if ev != [] {
      DatosSinTerminadores(ev[1..]);
    }
  }

  function Avanzar(f: Framed, n: nat): Framed
  {
    f.(consumidos := f.consumidos + n)
  }

  /** The buffer after one read result, when that result does not end the call. */
  function Acumular(buf: string, r: ReadResult): string
  {
    buf + DatoDe(r)
  }

  /** A terminator that ends the line: one read when the buffer is not empty. */
  predicate FinDeLinea(buf: string, r: ReadResult)
  {
    r.Byte? && IsTerminator(r.c) && buf != []
  }

  /** The framing loop of leerLinea, started with buffer contents `buf`: a negative
      read fails at once, a terminator after content makes the line ready, anything
      else (a data byte, a zero-byte read, a terminator on an empty buffer) is
      absorbed and reading goes on; running out of results leaves the call polling. */
  function Frame(ev: seq<ReadResult>, buf: string): (r: Framed)
    ensures r.outcome != PortClosed
    ensures r.consumidos <= |ev|
    ensures r.outcome == StillWaiting ==> r.consumidos == |ev|
    ensures r.outcome != StillWaiting ==> 1 <= r.consumidos
    decreases |ev|
  {
    if ev == [] then Framed(StillWaiting, buf, 0)
    else if ev[0].ReadError? then Framed(ReadFailed, buf, 1)
    else if FinDeLinea(buf, ev[0]) then Framed(LineReady, buf, 1)
    else Avanzar(Frame(ev[1..], Acumular(buf, ev[0])), 1)
  }

  /** The string is buf followed by the data bytes of the results consumed; a ready
      line is non-empty and was ended by a terminator; a failure was a negative read. */
  lemma {:induction false} FrameContenido(ev: seq<ReadResult>, buf: string)
    ensures var r := Frame(ev, buf);
      && r.linea == buf + Datos(ev[..r.consumidos])
      && (r.outcome == LineReady ==>
            r.linea != [] && ev[r.consumidos - 1].Byte? && IsTerminator(ev[r.consumidos - 1].c))
      && (r.outcome == ReadFailed ==> ev[r.consumidos - 1].ReadError?)
    decreases |ev|
  {
    if ev == [] {
    } else {
      assert ev[..1] == [ev[0]];
      if !ev[0].ReadError? && !FinDeLinea(buf, ev[0]) {
        var f := Frame(ev[1..], Acumular(buf, ev[0]));
        FrameContenido(ev[1..], Acumular(buf, ev[0]));
        assert ev[..f.consumidos + 1] == [ev[0]] + ev[1..][..f.consumidos];
        DatosConcat([ev[0]], ev[1..][..f.consumidos]);
      }
    }
  }

  /** Before the result that ends the call (a terminator after content or a failed
      read), and among all results of a call still waiting, there was no failed read
      and every terminator met found the buffer still empty. */
  lemma {:induction false} FrameParaEnPrimerTerminador(ev: seq<ReadResult>, buf: string, j: nat)
    requires var f := Frame(ev, buf); j < f.consumidos - (if f.outcome == StillWaiting then 0 else 1)
    ensures !ev[j].ReadError?
    ensures ev[j].Byte? && IsTerminator(ev[j].c) ==> buf + Datos(ev[..j]) == []
    decreases |ev|
  {
    var buf' := Acumular(buf, ev[0]);
    assert Frame(ev, buf) == Avanzar(Frame(ev[1..], buf'), 1);
    if j > 0 {
      FrameParaEnPrimerTerminador(ev[1..], buf', j - 1);
      assert ev[..j] == [ev[0]] + ev[1..][..j - 1];
      DatosConcat([ev[0]], ev[1..][..j - 1]);
    }
  }

  /** The read results with every zero-byte read dropped. */
  function SinVacios(ev: seq<ReadResult>): seq<ReadResult>
  {
    if ev == [] then [] else (if ev[0] == NoBytes then [] else [ev[0]]) + SinVacios(ev[1..])
  }

  /** Zero-byte reads only cause a retry: dropping them changes neither the
      outcome nor the string. */
  lemma {:induction false} FrameIgnoraVacios(ev: seq<ReadResult>, buf: string)
    ensures Frame(SinVacios(ev), buf).outcome == Frame(ev, buf).outcome
    ensures Frame(SinVacios(ev), buf).linea == Frame(ev, buf).linea
    decreases |ev|
  {
    if ev != [] {
      var rest := SinVacios(ev[1..]);
      if ev[0] == NoBytes {
        assert SinVacios(ev) == rest;
        assert Acumular(buf, ev[0]) == buf;
        FrameIgnoraVacios(ev[1..], buf);
      } else {
        assert SinVacios(ev) == [ev[0]] + rest;
        assert SinVacios(ev)[1..] == rest;
        FrameIgnoraVacios(ev[1..], Acumular(buf, ev[0]));
      }
    }
  }

  /** The read results for the bytes "T A 1\r\nP B 2\n". */
  const Ejemplo: seq<ReadResult> :=
    [Byte('T'), Byte(' '), Byte('A'), Byte(' '), Byte('1'), Byte('\r'), Byte('\n'),
     Byte('P'), Byte(' '), Byte('B'), Byte(' '), Byte('2'), Byte('\n')]

  /** The first call on Ejemplo returns "T A 1" after six reads. */
  lemma FrameEjemploPrimera()
    ensures Frame(Ejemplo, []) == Framed(LineReady, "T A 1", 6)
  {
    var ev := Ejemplo;
    assert Frame(ev[5..], "T A 1") == Framed(LineReady, "T A 1", 1);
    assert ev[4..][1..] == ev[5..];
    assert Acumular("T A ", ev[4]) == "T A 1";
    assert Frame(ev[4..], "T A ") == Framed(LineReady, "T A 1", 2);
    assert ev[3..][1..] == ev[4..];
    assert Acumular("T A", ev[3]) == "T A ";
    assert Frame(ev[3..], "T A") == Framed(LineReady, "T A 1", 3);
    assert ev[2..][1..] == ev[3..];
    assert Acumular("T ", ev[2]) == "T A";
    assert Frame(ev[2..], "T ") == Framed(LineReady, "T A 1", 4);
    assert ev[1..][1..] == ev[2..];
    assert Acumular("T", ev[1]) == "T ";
    assert Frame(ev[1..], "T") == Framed(LineReady, "T A 1", 5);
  }

  /** The second call skips the "\n" of the "\r\n" pair and returns "P B 2". */
  lemma FrameEjemploSegunda()
    ensures Frame(Ejemplo[6..], []) == Framed(LineReady, "P B 2", 7)
  {
    var ev := Ejemplo[6..];
    assert Frame(ev[6..], "P B 2") == Framed(LineReady, "P B 2", 1);
    assert ev[5..][1..] == ev[6..];
    assert Acumular("P B ", ev[5]) == "P B 2";
    assert Frame(ev[5..], "P B ") == Framed(LineReady, "P B 2", 2);
    assert ev[4..][1..] == ev[5..];
    assert Acumular("P B", ev[4]) == "P B ";
    assert Frame(ev[4..], "P B") == Framed(LineReady, "P B 2", 3);
    assert ev[3..][1..] == ev[4..];
    assert Acumular("P ", ev[3]) == "P B";
    assert Frame(ev[3..], "P ") == Framed(LineReady, "P B 2", 4);
    assert ev[2..][1..] == ev[3..];
    assert Acumular("P", ev[2]) == "P ";
    assert Frame(ev[2..], "P") == Framed(LineReady, "P B 2", 5);
    assert ev[1..][1..] == ev[2..];
    assert Acumular([], ev[1]) == "P";
    assert Frame(ev[1..], []) == Framed(LineReady, "P B 2", 6);
    assert Acumular([], ev[0]) == [];
  }

  class SerialPort {
    var descriptorArchivo: int
    var estadoConexion: bool
    /** The speed abrir hands to cfsetispeed/cfsetospeed; 0 before any configuration. */
    var tasaConfigurada: int

    /** A new port is closed, with descriptor -1. */
    constructor ()
      ensures descriptorArchivo == -1 && !estadoConexion && tasaConfigurada == 0
    {
      descriptorArchivo := -1;
      estadoConexion := false;
      tasaConfigurada := 0;
    }

    /** abrir: resultadoOpen is what open() returned. A negative result leaves the
        connection state as it was; otherwise the speed is configured and the port
        is open. */
    method Abrir(velocidad: int, resultadoOpen: int) returns (ok: bool)
      modifies this
      ensures descriptorArchivo == resultadoOpen
      ensures ok <==> resultadoOpen >= 0
      ensures ok ==> estadoConexion && tasaConfigurada == TasaBaudios(velocidad)
      ensures !ok ==> estadoConexion == old(estadoConexion) && tasaConfigurada == old(tasaConfigurada)
    {
      descriptorArchivo := resultadoOpen;
      if descriptorArchivo < 0 {
        return false;
      }
      tasaConfigurada := TasaBaudios(velocidad);
      estadoConexion := true;
      return true;
    }

    /** leerLinea over the results `lecturas` that successive reads return; `resto`
        is what is left unread. On a closed port the string is left untouched;
        otherwise it is cleared and then filled as Frame describes. */
    method LeerLinea(secuencia: string, lecturas: seq<ReadResult>)
      returns (r: Outcome, secuenciaOut: string, resto: seq<ReadResult>)
      ensures !estadoConexion || descriptorArchivo < 0 ==>
        r == PortClosed && secuenciaOut == secuencia && resto == lecturas
      ensures estadoConexion && descriptorArchivo >= 0 ==>
        && r == Frame(lecturas, []).outcome
        && secuenciaOut == Frame(lecturas, []).linea
        && resto == lecturas[Frame(lecturas, []).consumidos..]
    {
      if !estadoConexion || descriptorArchivo < 0 {
        return PortClosed, secuencia, lecturas;
      }
      secuenciaOut := [];
      var i := 0;
      while i < |lecturas|
        invariant 0 <= i <= |lecturas|
        invariant Avanzar(Frame(lecturas[i..], secuenciaOut), i) == Frame(lecturas, [])
        decreases |lecturas| - i
      {
        var bytesCapturados := lecturas[i];
        assert lecturas[i..][1..] == lecturas[i + 1..];
        assert lecturas[i..][0] == bytesCapturados;
        i := i + 1;
        if bytesCapturados.ReadError? {
          return ReadFailed, secuenciaOut, lecturas[i..];
        }
        if bytesCapturados.NoBytes? {
          // usleep(10000) and retry
          assert Acumular(secuenciaOut, bytesCapturados) == secuenciaOut;
          continue;
        }
        var caracter := bytesCapturados.c;
        if IsTerminator(caracter) {
          if secuenciaOut != [] {
            return LineReady, secuenciaOut, lecturas[i..];
          }
          assert Acumular(secuenciaOut, bytesCapturados) == secuenciaOut;
          continue;
        }
        secuenciaOut := secuenciaOut + [caracter];
      }
      return StillWaiting, secuenciaOut, [];
    }

    function EstaAbierto(): (b: bool)
      reads this
      ensures b <==> estadoConexion
    {
      estadoConexion
    }

    /** cerrar acts only on an open port; afterwards the port is closed with
        descriptor -1, so a second call changes nothing. */
    method Cerrar()
      modifies this
      ensures old(estadoConexion) && old(descriptorArchivo) >= 0 ==>
        !estadoConexion && descriptorArchivo == -1 && tasaConfigurada == old(tasaConfigurada)
      ensures !(old(estadoConexion) && old(descriptorArchivo) >= 0) ==> unchanged(this)
    {
      if estadoConexion && descriptorArchivo >= 0 {
        descriptorArchivo := -1;
        estadoConexion := false;
      }
    }
  }

  /** A line leerLinea returns is non-empty and holds no terminator. */
  lemma LineaSinTerminadores(ev: seq<ReadResult>)
    requires Frame(ev, []).outcome == LineReady
    ensures Frame(ev, []).linea != [] && NoTerminators(Frame(ev, []).linea)
  {
    FrameContenido(ev, []);
    DatosSinTerminadores(ev[..Frame(ev, []).consumidos]);
  }
}
