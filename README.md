# IoT sensor platform — Dafny model

This project models the core of a small C++ IoT sensor platform. The platform keeps sensors in a hand-written singly
linked list (`ListaSensor<T>` over `Nodo<T>`). A sensor (`SensorBase`) has a 50-byte name buffer filled with
`strncpy`. There are two kinds of sensor. A thermal sensor (`SensorTemperatura`) stores float readings and reports
their minimum, computed against a `999999.0` start value. A pressure sensor (`SensorPresion`) stores int readings and
reports their arithmetic mean. Readings arrive from an Arduino over a serial port (`SerialPort`), one text line at a
time, as `T|P <identificador> <valor>`. The capture loop of `main.cpp`:

- filters the Arduino's banner lines;
- parses the rest with a `std::istringstream`;
- looks the identifier up in the registry, where the last sensor with that name wins;
- creates a sensor for an unseen identifier, or appends the reading to the sensor it found.

Menu options 1–3 register sensors and take manual readings.

One module per source file:

| module | file | models |
|---|---|---|
| `Wrappers` | Wrappers.dfy | `Option`, `Result`, the 32-bit int range |
| `LinkedNode` | Nodo.dfy | `Nodo<T>` as a heap class |
| `LinkedList` | ListaSensor.dfy | `ListaSensor<T>` as a heap class. Its ghost `Contents`/`Nodes`/`Repr` state and a `Valid()` invariant tie the `primero`/`siguiente` chain, the `elementos` counter and the abstract sequence together. `iterar` is a fold of the visitor over the contents. |
| `SensorName` | SensorBase.dfy | the `char nombre[50]` buffer as an `array<char>`; `strncpy` as a loop; `getNombre` as the C string before the first NUL |
| `Thermal` | SensorTemperatura.dfy | thermal sensor: a `SensorBase` part plus an owned `ListaSensor<real>` |
| `Barometric` | SensorPresion.dfy | pressure sensor: a `SensorBase` part plus an owned `ListaSensor<int>`; the as-written 32-bit accumulator |
| `Serial` | SerialPort.dfy | `SerialPort`; `leerLinea` over a given sequence of `read()` results; the specification function `Frame` |
| `LineDecoder` | Decoder.dfy | the banner filter and the `>>` extractions of the capture loop; a writer for the same line format, used for round trips |
| `Ingestion` | Captura.dfy | the registry, the step function `Paso` for one received line, the capture loop, menu options 1–3. `Plataforma` holds these methods. |

## Model

| member | source | states |
|---|---|---|
| LinkedNode.Nodo.constructor | Nodo.h:32 | a new node holds the given content and its next link is null |
| LinkedList.ListaSensor.constructor | ListaSensor.h:37-39 | a new list is valid, empty, with element count 0 |
| LinkedList.ListaSensor.Copia | ListaSensor.h:47-50 | the copy constructor yields a valid list with the same contents, built entirely from fresh nodes (a deep copy) |
| LinkedList.ListaSensor.Asignar | ListaSensor.h:60-67 | after assignment the list holds the source's old contents. Self-assignment keeps the contents. Otherwise the source is untouched and the two lists share no node. |
| LinkedList.ListaSensor.InsertarAlFinal | ListaSensor.h:86-100 | the contents gain the element at the end; the count grows by one; the chain stays well-formed; only fresh nodes are added |
| LinkedList.ListaSensor.Buscar | ListaSensor.h:110-119 | returns null exactly when the value is absent; otherwise the node holding its first occurrence |
| LinkedList.FirstIndex | ListaSensor.h:112-116 | the index of the first occurrence: it holds the value and no earlier position does |
| LinkedList.ListaSensor.GetTamanio | ListaSensor.h:125-127 | the count equals the number of elements in the chain |
| LinkedList.ListaSensor.EstaVacia | ListaSensor.h:133-135 | true exactly when the list has no elements, and exactly when the counter is 0 |
| LinkedList.ListaSensor.GetCabeza | ListaSensor.h:141-143 | null exactly when the list is empty; otherwise the node holding the first element |
| LinkedList.ListaSensor.Iterar | ListaSensor.h:154-160 | the visitor's captured state ends as the left fold of the visitor over the contents, visited in order from the head |
| LinkedList.FoldL | ListaSensor.h:154-160 | the left fold of a visitor over the contents: the reference the traversal is proved equal to |
| LinkedList.FoldLAnotar | ListaSensor.h:154-160 | a visitor that records what it sees records exactly the contents, in order |
| LinkedList.ListaSensor.Vaciar | ListaSensor.h:168-176 | afterwards the list is valid and empty, the counter is 0 and the head is null |
| LinkedList.ListaSensor.DuplicarDesde | ListaSensor.h:186-196 | the source's contents are appended in order as fresh nodes; the source is untouched |
| LinkedList.CopiaIndependiente | ListaSensor.h:47-50 | inserting into a copy leaves the original's contents unchanged |
| SensorName.CString | SensorBase.h:69-71 | the name read back is a prefix of the buffer with no NUL in it, ended by the first NUL |
| SensorName.BufferNombre | SensorBase.h:34-37 | the buffer has 50 characters and the last one (index 49) is NUL |
| SensorName.NombreAlmacenado | SensorBase.h:34-37 | a stored name has at most 49 characters and no NUL |
| SensorName.NombreEsPrefijo | SensorBase.h:34-37 | the stored name is the first min(length, 49) characters of the identifier's C string |
| SensorName.NombreTruncado | SensorBase.h:34-37 | for an identifier without NUL, the stored name is its first min(length, 49) characters |
| SensorName.NombreIntacto | SensorBase.h:34-37 | the stored name equals the identifier if and only if the identifier has at most 49 characters and no NUL |
| SensorName.Strncpy | SensorBase.h:35 | copies up to n characters, stops at the first NUL, pads the rest of the first n with NUL, and leaves the cells past n alone |
| SensorName.SensorBase.constructor | SensorBase.h:34-37 | the name buffer is exactly the strncpy result plus the NUL at index 49; getNombre yields the stored name |
| SensorName.SensorBase.Defecto | SensorBase.h:34-37 | with the default argument the name is "DISPOSITIVO" |
| SensorName.SensorBase.GetNombre | SensorBase.h:69-71 | the name has at most 49 characters and no NUL |
| Thermal.MinimoCota | SensorTemperatura.h:76-81 | the minimum traversal's result is at most the start value and at most every reading |
| Thermal.PasoMinimo | SensorTemperatura.h:77-81 | one visit keeps the smaller of the running minimum and the reading: the result is at most both and equals one of them |
| Thermal.MinimoPertenece | SensorTemperatura.h:76-81 | the result is the start value or one of the readings |
| Thermal.MinimoVerdadero | SensorTemperatura.h:76-81 | if some reading is below 999999.0, the result is a reading and at most every reading, the true minimum; if none is, the result is 999999.0 |
| Thermal.MinimoEjemplo | SensorTemperatura.h:69-85 | readings 25.5, 20.0, 30.0 give minimum 20.0 |
| Thermal.SensorTemperatura.constructor | SensorTemperatura.h:36-39 | a new thermal sensor is valid, with the stored name of its identifier and an empty history |
| Thermal.SensorTemperatura.Defecto | SensorTemperatura.h:36-39 | with the default argument the sensor is valid, named "TERM-000", with an empty history |
| Thermal.SensorTemperatura.GetNombre | SensorBase.h:69-71 | the name has at most 49 characters |
| Thermal.SensorTemperatura.AgregarLectura | SensorTemperatura.h:57-61 | the history gains the reading at the end; the name is unchanged |
| Thermal.SensorTemperatura.ProcesarLectura | SensorTemperatura.h:69-85 | no result exactly when the history is empty. Otherwise: the fold from the sentinel, at most every reading, and either the sentinel or a reading. |
| Thermal.SensorTemperatura.ImprimirInfo | SensorTemperatura.h:94-108 | the count shown is the history length; the values listed are the history in order |
| Thermal.SensorTemperatura.GetHistorial | SensorTemperatura.h:116-118 | returns the sensor's own list (the same object), whose contents are the history |
| Thermal.AgregarPorHistorial | SensorTemperatura.h:116-118 | a reading appended through getHistorial is part of the history and bounds the minimum from above |
| Barometric.AcumulaSumaYCuenta | SensorPresion.h:75-81 | the mean traversal leaves (sum of readings, number of readings) in (acumulador, cantidadDatos) |
| Barometric.PasoMedia | SensorPresion.h:78-81 | one visit adds the reading to the sum and one to the count; AcumulaSumaYCuenta states the traversal result |
| Barometric.Acumular32 | SensorPresion.h:78-80 | the accumulation as written in 32 bits: no result once a partial sum leaves the int range, and a result that exists lies in that range |
| Barometric.Acumular32Exacto | SensorPresion.h:78-80 | when no partial sum leaves the int range, the 32-bit accumulator equals the exact sum |
| Barometric.Acumular32Constante | SensorPresion.h:78-80 | with one positive reading repeated, the int accumulator overflows exactly when the total exceeds INT_MAX |
| Barometric.AcumuladorDesborda | SensorPresion.h:75-83 | 21195 readings of 101325 Pa overflow the int accumulator; 21194 do not |
| Barometric.MediaEjemplo | SensorPresion.h:68-86 | readings 100, 102, 101 have mean 101.0 |
| Barometric.Media | SensorPresion.h:65-83 | the arithmetic mean of the readings as an exact fraction, the value SensorPresion.ProcesarLectura returns; MediaEjemplo gives an instance |
| Barometric.SensorPresion.constructor | SensorPresion.h:36-39 | a new pressure sensor is valid, with the stored name of its identifier and an empty history |
| Barometric.SensorPresion.Defecto | SensorPresion.h:36-39 | with the default argument the sensor is valid, named "PRES-000", with an empty history |
| Barometric.SensorPresion.GetNombre | SensorBase.h:69-71 | the name has at most 49 characters |
| Barometric.SensorPresion.AgregarLectura | SensorPresion.h:57-60 | the history gains the reading at the end; the name is unchanged |
| Barometric.SensorPresion.ProcesarLectura | SensorPresion.h:68-86 | no result exactly when the history is empty (no division by zero); otherwise the exact arithmetic mean of the history |
| Barometric.SensorPresion.ImprimirInfo | SensorPresion.h:95-109 | the count shown is the history length; the values listed are the history in order |
| Barometric.SensorPresion.GetHistorial | SensorPresion.h:117-119 | returns the sensor's own list, whose contents are the history |
| Serial.TasaBaudios | SerialPort.h:69-76 | the configured rate is always a supported one; a supported request is kept; anything else falls back to 9600 |
| Serial.Frame | SerialPort.h:118-152 | never reports a closed port and consumes at most the given results; a call still waiting consumed every result, any other call at least one. FrameParaEnPrimerTerminador states what the consumed results were |
| Serial.FrameContenido | SerialPort.h:118-152 | the line is the data bytes of the consumed results. A delivered line is non-empty and was ended by a terminator. A failure was ended by a read error. |
| Serial.FrameParaEnPrimerTerminador | SerialPort.h:130-147 | before the result that ends a call (the terminator of a delivered line or the failed read), and among all results of a call still waiting, there is no read error, and every terminator met found the line still empty |
| Serial.Acumular | SerialPort.h:150 | a data byte is appended to the line and any other result adds nothing; FrameContenido states that the line is the data bytes consumed |
| Serial.FrameIgnoraVacios | SerialPort.h:135-139 | zero-byte reads change neither the outcome nor the line |
| Serial.FrameEjemploPrimera | SerialPort.h:118-152 | the bytes of "T A 1\r\nP B 2\n" yield "T A 1" after 6 reads |
| Serial.FrameEjemploSegunda | SerialPort.h:118-152 | the remaining reads yield "P B 2" after 7 more (the "\r\n" pair gives no empty line) |
| Serial.LineaSinTerminadores | SerialPort.h:142-150 | a delivered line is non-empty and contains neither '\n' nor '\r' |
| Serial.SerialPort.constructor | SerialPort.h:39 | a new port is closed with descriptor -1 |
| Serial.SerialPort.Abrir | SerialPort.h:52-108 | succeeds exactly when open() returned a non-negative descriptor. Success opens the port at the mapped rate; failure stores the descriptor and leaves the connection state as it was. |
| Serial.SerialPort.LeerLinea | SerialPort.h:118-152 | a closed port leaves the string and the input untouched; an open one clears the string and behaves as Frame describes |
| Serial.SerialPort.EstaAbierto | SerialPort.h:158-160 | reports the connection flag |
| Serial.SerialPort.Cerrar | SerialPort.h:167-174 | an open port becomes closed with descriptor -1; otherwise nothing changes |
| LineDecoder.ContainsAt | main.cpp:86-88 | a piece found at any position makes std::string::find succeed |
| LineDecoder.PosicionDe | main.cpp:86-88 | a successful find has a position where the piece occurs |
| LineDecoder.ContainsSiPosicion | main.cpp:86-88 | find succeeds if and only if the piece occurs at some position |
| LineDecoder.EsMensajeDeSistema | main.cpp:86-89 | a line is skipped when it contains "===", "Arduino" or "Formato", or is empty; PasoFiltro states both directions |
| LineDecoder.Contains | main.cpp:86-88 | `find != npos`: ContainsAt and PosicionDe state that it holds exactly when the piece occurs at some position |
| LineDecoder.SkipSpace | main.cpp:100 | what is left never starts with white space and is no longer than the input |
| LineDecoder.ReadToken | main.cpp:100 | a string extraction yields a non-empty token free of white space |
| LineDecoder.ReadChar | main.cpp:100 | `>> char` skips white space and takes one character that is not white space, leaving a shorter rest |
| LineDecoder.ReadInt | main.cpp:137-141 | an int extraction that succeeds yields a value in the 32-bit range |
| LineDecoder.ReadFloat | main.cpp:114-118 | a float extraction: white space, an optional sign, then digits with an optional fraction, at least one digit; ReadFloatShowTenths states its round trip |
| LineDecoder.Encabezado | main.cpp:100 | the two extractions `>> tipoDispositivo >> identificador`: a tag that is not white space and a non-empty identifier free of white space |
| LineDecoder.Decodificar | main.cpp:96-161 | a line without tag and identifier is a format error; a decoded reading carries the identifier read, and its kind is thermal exactly for tag T/t and pressure exactly for tag P/p |
| LineDecoder.DecodificadoEsToken | main.cpp:96-100 | the identifier of a decoded line is a non-empty token free of white space |
| LineDecoder.EncabezadoCodificado | main.cpp:96-100 | for "tipo id valor", the tag and the identifier are read back, and the stream is left at the value |
| LineDecoder.ReadIntShowInt | main.cpp:137-141 | a written int is read back exactly when it fits in 32 bits, and fails otherwise |
| LineDecoder.ReadFloatShowTenths | main.cpp:114-118 | a value written with one decimal is read back as exactly that decimal |
| LineDecoder.DecodificarPresion | main.cpp:136-141 | a pressure line decodes to the identifier and value written, and is rejected exactly when the value overflows an int |
| LineDecoder.DecodificarTemperatura | main.cpp:113-118 | a thermal line with one decimal decodes to the identifier and value written |
| LineDecoder.DecodificarFallos | main.cpp:113-161 | an unknown tag is rejected with that tag. A missing or non-numeric value is rejected with the error of its kind. |
| LineDecoder.DecodificarEjemploTermico | main.cpp:113-118 | "T TEMP-001 25.5" decodes to thermal reading 25.5 for TEMP-001 |
| LineDecoder.DecodificarEjemploPresion | main.cpp:136-141 | "P PRES-100 101325" decodes to pressure reading 101325 for PRES-100 |
| LineDecoder.DecodificarEjemploTexto | main.cpp:115-118 | "T TEMP-1 abc" is rejected as an invalid temperature |
| LineDecoder.DecodificarEjemploSinValor | main.cpp:115-118 | "T TEMP-1 " is rejected as an invalid temperature |
| LineDecoder.DecodificarEjemploSinToken | main.cpp:115-118 | "T TEMP-1", ending after the identifier, is rejected as an invalid temperature |
| LineDecoder.DecodificarEjemploTipo | main.cpp:158-161 | "X ID-1 5" is rejected as an unknown kind 'X' |
| LineDecoder.DecodificarEjemploDesborde | main.cpp:138-141 | "P PRES-1 2147483648" is rejected as an invalid pressure |
| Ingestion.UltimaCoincidencia | main.cpp:106-111 | the lookup visitor selects the last entry whose stored name equals the identifier, and selects nothing exactly when no entry has that name |
| Ingestion.Registrar | main.cpp:105-157 | the registry update for one decoded reading; PasoCrea, PasoActualiza and PasoTipoDistinto state its three cases |
| Ingestion.Nuevo | main.cpp:120-124 | a new sensor of the reading's kind under the stored name, holding that one reading; PasoCrea states when it is appended |
| Ingestion.Agregar | main.cpp:128-130 | appending a reading keeps the sensor's name and kind; PasoActualiza and CapturaManualEfecto state which entry grows and by what |
| Ingestion.MismoTipo | main.cpp:128-129 | the dynamic_cast succeeds exactly when the sensor and the reading are of the same kind; PasoTipoDistinto states the failing case |
| Ingestion.Paso | main.cpp:84-164 | one line raises the counter by zero or one and the registry by at most one entry |
| Ingestion.Ejecutar | main.cpp:83-166 | n lines raise the counter and the registry by at most n each, never lower them |
| Ingestion.LineasRecibidas | main.cpp:83-84 | no more lines than read results, each line non-empty and free of line terminators |
| Ingestion.PasoCuenta | main.cpp:84-164 | a line counts exactly when it is not a banner and it decodes; a line that does not count leaves registry and counter as they were |
| Ingestion.PasoFiltro | main.cpp:86-91 | a line that is empty or holds "===", "Arduino" or "Formato" changes nothing; a non-empty line holding none of them counts exactly when it decodes |
| Ingestion.PasoEjemploBanner | main.cpp:86-91 | "Sensor Arduino listo" is dropped |
| Ingestion.PasoCrea | main.cpp:120-125 | an unseen identifier gets a new sensor of the line's kind at the end, holding that one reading under its stored name |
| Ingestion.PasoActualiza | main.cpp:126-134 | a same-kind hit appends the reading to the selected sensor only; every other entry is unchanged |
| Ingestion.PasoTipoDistinto | main.cpp:128-134 | a hit of the other kind leaves the registry unchanged |
| Ingestion.RegistrarPreservaNombres | main.cpp:120-134 | the registry's names keep fitting the 49-character NUL-free buffer after any measurement |
| Ingestion.EjecutarPreservaNombres | main.cpp:83-166 | the same holds after any sequence of received lines |
| Ingestion.EjecutarConcat | main.cpp:83-166 | processing two batches of lines in turn is processing their concatenation |
| Ingestion.IdentificadorNoAlmacenable | main.cpp:105-125 | an identifier over 49 characters or holding NUL is never found again: each of its lines appends another new sensor, whose name differs from it |
| Ingestion.CreacionUnica | main.cpp:105-134 | for an identifier that fits, two same-kind readings create exactly one sensor holding both, in arrival order |
| Ingestion.HistorialEnOrden | main.cpp:126-134 | thermal readings for a registered thermal sensor extend its history by exactly those readings, in order; nothing else changes |
| Ingestion.HistorialPresionEnOrden | main.cpp:149-157 | pressure readings for a registered pressure sensor extend its history by exactly those readings, in order; nothing else changes |
| Ingestion.MismaCoincidencia | main.cpp:106-111 | updating the selected sensor in place keeps it selected |
| Ingestion.OrdenDeInsercion | main.cpp:105-124 | registering a, then b, then updating a leaves the registry as [a, b] |
| Ingestion.RegistroDuplicado | main.cpp:228-250 | options 1–2 append even when the code already exists, and for a code that fits the newest sensor is the one later lookups select |
| Ingestion.CapturaManualEfecto | main.cpp:252-286 | an unknown code changes nothing. A known code appends one reading of the selected sensor's own kind to that sensor and to no other. |
| Ingestion.CapturaManual | main.cpp:252-286 | manual capture keeps the registry's length, and every entry its name and kind |
| Ingestion.Plataforma.constructor | main.cpp:218 | the registry starts empty |
| Ingestion.Plataforma.Localizar | main.cpp:258-263 | the visitor loop ends with UltimaCoincidencia of the registry |
| Ingestion.Plataforma.RegistrarTermico | main.cpp:228-238 | the registry gains an empty thermal sensor with the code's stored name at the end |
| Ingestion.Plataforma.RegistrarPresion | main.cpp:240-250 | the registry gains an empty pressure sensor with the code's stored name at the end |
| Ingestion.Plataforma.CapturarMedicion | main.cpp:252-286 | reports whether the code was found; the registry becomes CapturaManual of the old one |
| Ingestion.Plataforma.ProcesarLinea | main.cpp:84-164 | the new registry and counter are Paso of the old ones and the line |
| Ingestion.Plataforma.ProcesarLineas | main.cpp:83-166 | the new registry and counter are Ejecutar over the lines, in order |
| Ingestion.Plataforma.CapturarDatosHardware | main.cpp:44-166 | a failed open changes nothing. Otherwise every line the reads deliver is processed in order, starting from counter 0. |

## Left out

- Console output (`std::cout`/`std::cerr`), the menu loop's `std::cin` reads and the port-path prompt: they are I/O. The values the user types in option 3 are parameters (`datoDecimal`, `datoEntero`).
- `open`, `tcgetattr`/`tcsetattr`/`cfset*speed`, `tcflush`, `sleep`, `usleep`, `read`, `close`: foreign calls. `open()`'s result is the parameter `resultadoOpen`. The successive `read()` results are the parameter `lecturas`. The termios flag settings (8N1, raw mode) are not modelled. The chosen speed is kept in an extra field `tasaConfigurada`.
- Serial.SerialPort.LeerLinea: the source blocks until a line or an error arrives. The model stops when the given results run out, with the outcome `StillWaiting`.
- Ingestion.Plataforma.CapturarDatosHardware: the source loops forever until Ctrl+C. The model processes a finite sequence of read results. It does not model the endless retry on a closed port, which cannot arise after a successful open.
- float and double arithmetic: readings and means are exact reals. float rounding on storage, `%.1f`/`%.2f` formatting and NaN are not modelled.
- LineDecoder.ReadFloat: reads `[sign] [digits] [. digits]` with at least one digit. Exponents and float overflow are not modelled, because they need floating point.
- LinkedList.ListaSensor.GetTamanio: the element count `elementos` is an unbounded int; its 32-bit overflow after 2^31 insertions is not modelled.
- Ingestion.Paso: the counter `contadorLecturas` is an unbounded int; its 32-bit overflow after 2^31 lines is not modelled.
- Heap ownership of registry entries: `main.cpp` stores `SensorBase*` objects in a `ListaSensor<SensorBase*>`. The model keeps the registry as a sequence of sensor values, so pointer aliasing between entries is not captured. `dynamic_cast` becomes the `Sensor` variant's tag.
- Destructors, `delete` and the Rule of Three's memory release: Dafny has no explicit deallocation. `Vaciar` models the unlinking and the counter.
- `typeid(T).name()` in the list's log messages: output only.
- Menu option 4 (processing all sensors) and option 5 (shutdown and release): not part of this model's scope. The per-sensor operations option 4 calls are modelled in `Thermal` and `Barometric`.
- Barometric.SensorPresion.ProcesarLectura: returns the mean of the exact sum. The 32-bit accumulator as written is `Barometric.Acumular32`; see Findings.

Behaviour the model keeps from the program:

- Duplicate identifiers are allowed: options 1–2 always append, and the lookup selects the LAST matching entry.
- A line for a registered identifier of the other kind is dropped silently, yet it still increments `contadorLecturas`.
- The banner filter (`===`, `Arduino`, `Formato`, empty line) sits in the capture loop, not in `leerLinea`.
- `procesarLectura` on an empty history prints a notice; the model returns `None`.

## Findings

| source | as written | input that shows it | evidently intended | confidence | as-written member | corrected member |
|---|---|---|---|---|---|---|
| SensorPresion.h:75-83 | `int acumulador` sums all readings in 32 bits before dividing; a long history overflows (signed overflow, undefined behaviour) | 21195 readings of 101325 Pa: the sum passes 2147483647 | the arithmetic mean of the readings | not executed | Barometric.AcumuladorDesborda | Barometric.SensorPresion.ProcesarLectura |
