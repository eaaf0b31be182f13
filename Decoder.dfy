/** How capturarDatosHardware (main.cpp) reads one received line: the banner
    filter, then `parser >> tipoDispositivo >> identificador` and `parser >> medicion`
    on a std::istringstream. */
module LineDecoder {
  import opened Wrappers

  /** A decoded measurement: float for a thermal line, int for a pressure line. */
  datatype Medicion = Temperatura(t: real) | Presion(p: int)

  datatype Lectura = Lectura(identificador: string, medicion: Medicion)

  /** Why a line is dropped. */
  datatype Fallo = FormatoIncorrecto | TemperaturaInvalida | PresionInvalida | TipoDesconocido(tipo: char)

  /** isspace in the C locale: what `>>` skips and what ends a string token. */
  predicate IsSpace(c: char)
  {
    c == ' ' || c == '\t' || c == '\n' || c == '\U{000B}' || c == '\U{000C}' || c == '\r'
  }

  predicate IsDigit(c: char)
  {
    '0' <= c <= '9'
  }

  /** s contains pat as a contiguous piece (std::string::find != npos). */
  predicate Contains(s: string, pat: string)
    decreases |s|
  {
    pat <= s || (s != [] && Contains(s[1..], pat))
  }

  /** A piece of pat found at position i is found by Contains. */
  lemma {:induction false} ContainsAt(s: string, pat: string, i: nat)
    requires i + |pat| <= |s| && s[i..i + |pat|] == pat
    ensures Contains(s, pat)
    decreases i
  {
    if i == 0 {
      assert s[..|pat|] == pat;
    } else {
      assert s[1..][i - 1..i - 1 + |pat|] == s[i..i + |pat|];
      ContainsAt(s[1..], pat, i - 1);
    }
  }

  /** Contains finds pat only where it occurs: it yields a position of pat in s. */
  lemma {:induction false} PosicionDe(s: string, pat: string) returns (i: nat)
    requires Contains(s, pat)
    ensures i + |pat| <= |s| && s[i..i + |pat|] == pat
    decreases |s|
  {
    if pat <= s {
      i := 0;
      assert s[..|pat|] == pat;
    } else {
      var j := PosicionDe(s[1..], pat);
      assert s[1..][j..j + |pat|] == s[j + 1..j + 1 + |pat|];
      i := j + 1;
    }
  }

  /** pat occurs in s starting at position i. */
  predicate OccursAt(s: string, pat: string, i: nat)
  {
    i + |pat| <= |s| && s[i..i + |pat|] == pat
  }

  /** Contains(s, pat) holds exactly when pat occurs at some position of s. */
  lemma {:induction false} ContainsSiPosicion(s: string, pat: string)
    ensures Contains(s, pat) <==> exists i: nat :: OccursAt(s, pat, i)
  {
    if Contains(s, pat) {
      var i := PosicionDe(s, pat);
      assert OccursAt(s, pat, i);
    }
    if exists i: nat :: OccursAt(s, pat, i) {
      var i: nat :| OccursAt(s, pat, i);
      ContainsAt(s, pat, i);
    }
  }

  /** Lines the Arduino sends at start-up, and empty lines, are skipped. */
  predicate EsMensajeDeSistema(linea: string)
  {
    Contains(linea, "===") || Contains(linea, "Arduino") || Contains(linea, "Formato") || linea == []
  }

  /** What remains after skipping leading white space. */
  function SkipSpace(s: string): (r: string)
    ensures |r| <= |s|
    ensures r != [] ==> !IsSpace(r[0])
    decreases |s|
  {
    if s != [] && IsSpace(s[0]) then SkipSpace(s[1..]) else s
  }

  /** Length of the leading run of characters that are not white space. */
  function TokenLength(s: string): (n: nat)
    ensures n <= |s|
    ensures forall i :: 0 <= i < n ==> !IsSpace(s[i])
    ensures n < |s| ==> IsSpace(s[n])
    decreases |s|
  {
    if s == [] || IsSpace(s[0]) then 0 else 1 + TokenLength(s[1..])
  }

  /** Length of the leading run of decimal digits. */
  function DigitRun(s: string): (n: nat)
    ensures n <= |s|
    ensures forall i :: 0 <= i < n ==> IsDigit(s[i])
    ensures n < |s| ==> !IsDigit(s[n])
    decreases |s|
  {
    if s == [] || !IsDigit(s[0]) then 0 else 1 + DigitRun(s[1..])
  }

  function DigitValue(c: char): nat
    requires IsDigit(c)
  {
    c as int - '0' as int
  }

  /** The number a run of decimal digits denotes. */
  function DigitsValue(ds: string): nat
    requires forall i :: 0 <= i < |ds| ==> IsDigit(ds[i])
  {
    if ds == [] then 0 else DigitsValue(ds[..|ds| - 1]) * 10 + DigitValue(ds[|ds| - 1])
  }

  /** An optional sign: whether it is '-', and what follows it. */
  function ReadSign(s: string): (bool, string)
  {
    if s != [] && (s[0] == '-' || s[0] == '+') then (s[0] == '-', s[1..]) else (false, s)
  }

  /** `parser >> c` for a char: the first character that is not white space. */
  function ReadChar(s: string): (r: Option<(char, string)>)
    ensures r.Some? ==> !IsSpace(r.value.0) && |r.value.1| < |s|
  {
    var t := SkipSpace(s);
    if t == [] then None else Some((t[0], t[1..]))
  }

  /** `parser >> str` for a std::string: the next run of non-space characters. */
  function ReadToken(s: string): (r: Option<(string, string)>)
    ensures r.Some? ==> r.value.0 != [] && forall i :: 0 <= i < |r.value.0| ==> !IsSpace(r.value.0[i])
  {
    var t := SkipSpace(s);
    var n := TokenLength(t);
    if n == 0 then None else Some((t[..n], t[n..]))
  }

  /** `parser >> medicion` for an int: [sign] digits, failing when there are no
      digits or the value does not fit in 32 bits. */
  function ReadInt(s: string): (r: Option<int>)
    ensures r.Some? ==> IntMin <= r.value <= IntMax
  {
    var (negativo, u) := ReadSign(SkipSpace(s));
    IntDesde(negativo, u)
  }

  /** The int read from the text after the sign. */
  function IntDesde(negativo: bool, u: string): (r: Option<int>)
    ensures r.Some? ==> IntMin <= r.value <= IntMax
  {
    var n := DigitRun(u);
    if n == 0 then None
    else
      var v: int := if negativo then -(DigitsValue(u[..n]) as int) else DigitsValue(u[..n]);
      if IntMin <= v <= IntMax then Some(v) else None
  }

  /** `parser >> medicion` for a float: [sign] digits [. digits] with at least one
      digit, read as an exact decimal. */
  function ReadFloat(s: string): Option<real>
  {
    var (negativo, u) := ReadSign(SkipSpace(s));
    RealDesde(negativo, u)
  }

  /** The float read from the text after the sign. */
  function RealDesde(negativo: bool, u: string): Option<real>
  {
    var n := DigitRun(u);
    var frac := Fraccion(u[n..]);
    if n + |frac| == 0 then None
    else
      var m := Magnitud(u[..n], frac);
      Some(if negativo then -m else m)
  }

  /** The digits after a decimal point, if the text starts with one. */
  function Fraccion(w: string): (f: string)
    ensures forall i :: 0 <= i < |f| ==> IsDigit(f[i])
  {
    if w != [] && w[0] == '.' then w[1..][..DigitRun(w[1..])] else []
  }

  /** The value of the digits after the point: 0.d1d2... = (d1 + 0.d2...) / 10. */
  function FracValue(frac: string): (r: real)
    requires forall i :: 0 <= i < |frac| ==> IsDigit(frac[i])
    ensures 0.0 <= r <= 1.0
  {
    if frac == [] then 0.0 else (DigitValue(frac[0]) as real + FracValue(frac[1..])) / 10.0
  }

  /** The value of an integer part and a fractional part. */
  function Magnitud(entero: string, frac: string): real
    requires forall i :: 0 <= i < |entero| ==> IsDigit(entero[i])
    requires forall i :: 0 <= i < |frac| ==> IsDigit(frac[i])
  {
    DigitsValue(entero) as real + FracValue(frac)
  }

  /** `parser >> tipoDispositivo >> identificador`, and what the stream has left. */
  function Encabezado(linea: string): (r: Option<(char, string, string)>)
    ensures r.Some? ==> !IsSpace(r.value.0) && r.value.1 != []
    ensures r.Some? ==> forall i :: 0 <= i < |r.value.1| ==> !IsSpace(r.value.1[i])
  {
    match ReadChar(linea)
    case None => None
    case Some((tipo, resto)) =>
      match ReadToken(resto)
      case None => None
      case Some((identificador, resto')) => Some((tipo, identificador, resto'))
  }

  /** The decoding of one line, with the source's order of checks: the two
      tokens, then the kind tag, then the value for that kind. */
  function Decodificar(linea: string): (r: Result<Lectura, Fallo>)
    ensures Encabezado(linea).None? ==> r == Failure(FormatoIncorrecto)
    ensures r.Success? ==> Encabezado(linea).Some? && r.value.identificador == Encabezado(linea).value.1
    ensures r.Success? ==> (r.value.medicion.Temperatura? <==> Encabezado(linea).value.0 in "Tt")
    ensures r.Success? ==> (r.value.medicion.Presion? <==> Encabezado(linea).value.0 in "Pp")
  {
    match Encabezado(linea)
    case None => Failure(FormatoIncorrecto)
    case Some((tipo, identificador, resto)) =>
      if tipo == 'T' || tipo == 't' then
        match ReadFloat(resto)
        case None => Failure(TemperaturaInvalida)
        case Some(v) => Success(Lectura(identificador, Temperatura(v)))
      else if tipo == 'P' || tipo == 'p' then
        match ReadInt(resto)
        case None => Failure(PresionInvalida)
        case Some(v) => Success(Lectura(identificador, Presion(v)))
      else Failure(TipoDesconocido(tipo))
  }

  /** A decoded identifier is a non-empty token free of white space. */
  lemma DecodificadoEsToken(linea: string)
    requires Decodificar(linea).Success?
    ensures var id := Decodificar(linea).value.identificador;
      id != [] && forall i :: 0 <= i < |id| ==> !IsSpace(id[i])
  {
  }

  // ---- Encoding: the lines the device sends, for the round trip ----

  function DigitChar(d: nat): (c: char)
    requires d < 10
    ensures IsDigit(c) && DigitValue(c) == d
  {
    ('0' as int + d) as char
  }

  /** Decimal digits of n, no leading zeros. */
  function ShowNat(n: nat): (s: string)
    ensures s != [] && forall i :: 0 <= i < |s| ==> IsDigit(s[i])
  {
    if n < 10 then [DigitChar(n)] else ShowNat(n / 10) + [DigitChar(n % 10)]
  }

  function ShowInt(v: int): string
  {
    if v < 0 then "-" + ShowNat(-v) else ShowNat(v)
  }

  /** k tenths written with one decimal, as in "25.5" or "-0.5". */
  function ShowTenths(k: int): string
  {
    var a := if k < 0 then -k else k;
    (if k < 0 then "-" else "") + ShowNat(a / 10) + "." + [DigitChar(a % 10)]
  }

  lemma {:induction false} DigitsValueShowNat(n: nat)
    ensures DigitsValue(ShowNat(n)) == n
  {
    if n >= 10 {
      var s := ShowNat(n);
      assert s[..|s| - 1] == ShowNat(n / 10);
      DigitsValueShowNat(n / 10);
    }
  }

  /** The digit run of digits followed by a non-digit is those digits. */
  lemma DigitRunDigitos(d: string, rest: string)
    requires forall i :: 0 <= i < |d| ==> IsDigit(d[i])
    requires rest == [] || !IsDigit(rest[0])
    ensures DigitRun(d + rest) == |d|
    ensures (d + rest)[..|d|] == d
  {
    var s := d + rest;
    assert forall i :: 0 <= i < |d| ==> IsDigit(s[i]);
    if rest != [] {
      assert s[|d|] == rest[0];
    }
  }

  /** SkipSpace drops a leading blank and stops at a non-space character. */
  lemma SkipSpaceBlank(rest: string)
    requires rest != [] && !IsSpace(rest[0])
    ensures SkipSpace(" " + rest) == rest
  {
    assert (" " + rest)[1..] == rest;
  }

  /** A token followed by a blank is read up to the blank. */
  lemma TokenLengthSeparado(id: string, valor: string)
    requires forall i :: 0 <= i < |id| ==> !IsSpace(id[i])
    ensures TokenLength(id + " " + valor) == |id|
  {
    var t := id + " " + valor;
    assert forall i :: 0 <= i < |id| ==> !IsSpace(t[i]);
    assert t[|id|] == ' ';
  }

  /** The header of a line the device writes as "<tipo> <id> <valor>". */
  lemma EncabezadoCodificado(tipo: char, id: string, valor: string)
    requires !IsSpace(tipo)
    requires id != [] && forall i :: 0 <= i < |id| ==> !IsSpace(id[i])
    ensures Encabezado([tipo] + " " + id + " " + valor) == Some((tipo, id, " " + valor))
  {
    var linea := [tipo] + " " + id + " " + valor;
    var t := id + " " + valor;
    assert ReadChar(linea) == Some((tipo, " " + t)) by {
      assert SkipSpace(linea) == linea;
      assert linea[1..] == " " + t;
    }
    assert ReadToken(" " + t) == Some((id, " " + valor)) by {
      SkipSpaceBlank(t);
      TokenLengthSeparado(id, valor);
      assert t[..|id|] == id;
      assert t[|id|..] == " " + valor;
    }
  }

  /** The sign a number is written with is read back. */
  lemma ReadSignShown(negativo: bool, d: string)
    requires d != [] && IsDigit(d[0])
    ensures ReadSign((if negativo then "-" else "") + d) == (negativo, d)
  {
    if negativo {
      assert ("-" + d)[1..] == d;
    } else {
      assert "" + d == d;
    }
  }

  /** The blank and the sign in front of a written number are read back. */
  lemma SignoLeido(negativo: bool, d: string)
    requires d != [] && IsDigit(d[0])
    ensures ReadSign(SkipSpace(" " + ((if negativo then "-" else "") + d))) == (negativo, d)
  {
    var w := (if negativo then "-" else "") + d;
    assert !IsSpace(w[0]);
    SkipSpaceBlank(w);
    ReadSignShown(negativo, d);
  }

  lemma IntDesdeShowNat(negativo: bool, a: nat)
    ensures var v: int := if negativo then -(a as int) else a;
      IntDesde(negativo, ShowNat(a)) == if IntMin <= v <= IntMax then Some(v) else None
  {
    var d := ShowNat(a);
    DigitRunDigitos(d, []);
    assert d + [] == d;
    assert d[..|d|] == d;
    DigitsValueShowNat(a);
  }

  /** A written int is read back exactly when it fits in 32 bits. */
  lemma ReadIntShowInt(v: int)
    ensures ReadInt(" " + ShowInt(v)) == if IntMin <= v <= IntMax then Some(v) else None
  {
    var a: nat := if v < 0 then -v else v;
    assert ShowInt(v) == (if v < 0 then "-" else "") + ShowNat(a);
    SignoLeido(v < 0, ShowNat(a));
    IntDesdeShowNat(v < 0, a);
  }

  /** Digits, a point and one more digit are read as integer part plus tenths. */
  lemma RealDesdeUnDecimal(negativo: bool, d: string, c: char)
    requires d != [] && forall i :: 0 <= i < |d| ==> IsDigit(d[i])
    requires IsDigit(c)
    ensures RealDesde(negativo, d + ("." + [c])) == Some(if negativo then -Magnitud(d, [c]) else Magnitud(d, [c]))
  {
    var u := d + ("." + [c]);
    var n := DigitRun(u);
    assert n == |d| && u[..n] == d by {
      DigitRunDigitos(d, "." + [c]);
    }
    assert Fraccion(u[n..]) == [c] by {
      assert u[n..] == "." + [c];
      assert ("." + [c])[1..] == [c];
      assert DigitRun([c]) == 1;
      assert [c][..1] == [c];
    }
  }

  /** One fractional digit counts tenths. */
  lemma MagnitudUnDecimal(d: string, c: char)
    requires forall i :: 0 <= i < |d| ==> IsDigit(d[i])
    requires IsDigit(c)
    ensures Magnitud(d, [c]) == DigitsValue(d) as real + DigitValue(c) as real / 10.0
  {
    assert [c][1..] == [];
    assert FracValue([c]) == (DigitValue(c) as real + FracValue([])) / 10.0;
  }

  lemma Decimas(a: nat)
    ensures (a / 10) as real + (a % 10) as real / 10.0 == a as real / 10.0
  {
    assert a == (a / 10) * 10 + a % 10;
  }

  /** The fractional digit after the point is read as tenths. */
  lemma RealDesdeTenths(negativo: bool, a: nat)
    ensures var u := ShowNat(a / 10) + ("." + [DigitChar(a % 10)]);
      RealDesde(negativo, u) == Some(if negativo then -(a as real / 10.0) else a as real / 10.0)
  {
    RealDesdeUnDecimal(negativo, ShowNat(a / 10), DigitChar(a % 10));
    MagnitudUnDecimal(ShowNat(a / 10), DigitChar(a % 10));
    DigitsValueShowNat(a / 10);
    Decimas(a);
  }

  lemma ReadFloatShowTenths(k: int)
    ensures ReadFloat(" " + ShowTenths(k)) == Some(k as real / 10.0)
  {
    var a: nat := if k < 0 then -k else k;
    var u := ShowNat(a / 10) + ("." + [DigitChar(a % 10)]);
    assert ShowTenths(k) == (if k < 0 then "-" else "") + u;
    assert ReadSign(SkipSpace(" " + ShowTenths(k))) == (k < 0, u) by {
      SignoLeido(k < 0, u);
    }
    assert RealDesde(k < 0, u) == Some(k as real / 10.0) by {
      RealDesdeTenths(k < 0, a);
    }
  }

  /** A pressure line the device writes decodes to the identifier and value
      written, and is rejected exactly when the value does not fit in an int. */
  lemma DecodificarPresion(id: string, v: int)
    requires id != [] && forall i :: 0 <= i < |id| ==> !IsSpace(id[i])
    ensures Decodificar("P " + id + " " + ShowInt(v))
      == if IntMin <= v <= IntMax then Success(Lectura(id, Presion(v))) else Failure(PresionInvalida)
  {
    var linea := "P " + id + " " + ShowInt(v);
    assert Encabezado(linea) == Some(('P', id, " " + ShowInt(v))) by {
      assert linea == ['P'] + " " + id + " " + ShowInt(v);
      EncabezadoCodificado('P', id, ShowInt(v));
    }
    assert ReadInt(" " + ShowInt(v)) == if IntMin <= v <= IntMax then Some(v) else None by {
      ReadIntShowInt(v);
    }
  }

  /** A thermal line written with one decimal decodes to the value written. */
  lemma DecodificarTemperatura(id: string, k: int)
    requires id != [] && forall i :: 0 <= i < |id| ==> !IsSpace(id[i])
    ensures Decodificar("T " + id + " " + ShowTenths(k)) == Success(Lectura(id, Temperatura(k as real / 10.0)))
  {
    assert "T " + id + " " + ShowTenths(k) == ['T'] + " " + id + " " + ShowTenths(k);
    EncabezadoCodificado('T', id, ShowTenths(k));
    ReadFloatShowTenths(k);
  }

  /** Lines in the `KIND ID VALUE` format. */
  lemma DecodificarEjemploTermico()
    ensures Decodificar("T TEMP-001 25.5") == Success(Lectura("TEMP-001", Temperatura(25.5)))
  {
    assert ShowTenths(255) == "25.5" by {
      assert ShowNat(2) == "2";
      assert ShowNat(25) == "25";
    }
    assert "T TEMP-001 25.5" == "T " + "TEMP-001" + " " + ShowTenths(255);
    DecodificarTemperatura("TEMP-001", 255);
  }

  lemma DecodificarEjemploPresion()
    ensures Decodificar("P PRES-100 101325") == Success(Lectura("PRES-100", Presion(101325)))
  {
    assert ShowInt(101325) == "101325" by {
      assert ShowNat(1) == "1";
      assert ShowNat(10) == "10";
      assert ShowNat(101) == "101";
      assert ShowNat(1013) == "1013";
      assert ShowNat(10132) == "10132";
    }
    assert "P PRES-100 101325" == "P " + "PRES-100" + " " + ShowInt(101325);
    DecodificarPresion("PRES-100", 101325);
  }

  /** A value that does not start like a number (or is missing). */
  predicate SinNumero(valor: string)
  {
    valor == [] || !(IsSpace(valor[0]) || IsDigit(valor[0]) || valor[0] in "+-.")
  }

  lemma SinNumeroNoSeLee(valor: string)
    requires SinNumero(valor)
    ensures ReadFloat(" " + valor) == None && ReadInt(" " + valor) == None
  {
    if valor == [] {
      assert SkipSpace(" ") == [];
    } else {
      SkipSpaceBlank(valor);
    }
  }

  /** A line whose value is missing or not a number is dropped with the error of
      its kind; a line whose tag is neither T nor P is dropped whatever follows. */
  lemma DecodificarFallos(tipo: char, id: string, valor: string)
    requires !IsSpace(tipo)
    requires id != [] && forall i :: 0 <= i < |id| ==> !IsSpace(id[i])
    ensures var linea := [tipo] + " " + id + " " + valor;
      && (tipo !in "TtPp" ==> Decodificar(linea) == Failure(TipoDesconocido(tipo)))
      && (SinNumero(valor) && tipo in "Tt" ==> Decodificar(linea) == Failure(TemperaturaInvalida))
      && (SinNumero(valor) && tipo in "Pp" ==> Decodificar(linea) == Failure(PresionInvalida))
  {
    EncabezadoCodificado(tipo, id, valor);
    if SinNumero(valor) {
      SinNumeroNoSeLee(valor);
    }
  }

  /** A line whose value is not a number is dropped. */
  lemma DecodificarEjemploTexto()
    ensures Decodificar("T TEMP-1 abc") == Failure(TemperaturaInvalida)
  {
    assert SinNumero("abc");
    assert "T TEMP-1 abc" == ['T'] + " " + "TEMP-1" + " " + "abc";
    DecodificarFallos('T', "TEMP-1", "abc");
  }

  /** A line with no value is dropped. */
  lemma DecodificarEjemploSinValor()
    ensures Decodificar("T TEMP-1 ") == Failure(TemperaturaInvalida)
  {
    assert "T TEMP-1 " == ['T'] + " " + "TEMP-1" + " " + "";
    DecodificarFallos('T', "TEMP-1", "");
  }

  /** A line that ends right after the identifier is dropped as well. */
  lemma DecodificarEjemploSinToken()
    ensures Decodificar("T TEMP-1") == Failure(TemperaturaInvalida)
  {
    assert ReadChar("T TEMP-1") == Some(('T', " TEMP-1")) by {
      assert SkipSpace("T TEMP-1") == "T TEMP-1";
    }
    assert ReadToken(" TEMP-1") == Some(("TEMP-1", "")) by {
      assert " TEMP-1" == " " + "TEMP-1";
      SkipSpaceBlank("TEMP-1");
      assert forall i :: 0 <= i < |"TEMP-1"| ==> !IsSpace("TEMP-1"[i]);
      assert "TEMP-1"[..6] == "TEMP-1";
    }
  }

  /** A line with an unknown tag is dropped. */
  lemma DecodificarEjemploTipo()
    ensures Decodificar("X ID-1 5") == Failure(TipoDesconocido('X'))
  {
    assert "X ID-1 5" == ['X'] + " " + "ID-1" + " " + "5";
    DecodificarFallos('X', "ID-1", "5");
  }

  /** ShowNat appends the last digit to the digits of the rest. */
  lemma ShowNatUltimo(n: nat, prefijo: string, c: char)
    requires n >= 10 && ShowNat(n / 10) == prefijo && DigitChar(n % 10) == c
    ensures ShowNat(n) == prefijo + [c]
  {
  }

  /** The text of one past the largest int. */
  lemma ShowIntDesborde()
    ensures ShowInt(IntMax + 1) == "2147483648"
  {
    assert ShowNat(2) == "2";
    ShowNatUltimo(21, "2", '1');
    ShowNatUltimo(214, "21", '4');
    ShowNatUltimo(2147, "214", '7');
    ShowNatUltimo(21474, "2147", '4');
    ShowNatUltimo(214748, "21474", '8');
    ShowNatUltimo(2147483, "214748", '3');
    ShowNatUltimo(21474836, "2147483", '6');
    ShowNatUltimo(214748364, "21474836", '4');
    ShowNatUltimo(2147483648, "214748364", '8');
  }

  /** A pressure one past the largest int is dropped. */
  lemma DecodificarEjemploDesborde()
    ensures Decodificar("P PRES-1 2147483648") == Failure(PresionInvalida)
  {
    ShowIntDesborde();
    assert "P PRES-1 2147483648" == "P " + "PRES-1" + " " + ShowInt(IntMax + 1);
    DecodificarPresion("PRES-1", IntMax + 1);
  }
}
