# SimulacionColectivos — a verified model of the bus simulation core

This project models the core of *SimulacionColectivos*, a discrete, lock-step
simulation of buses (*colectivos*) that run fixed lines (*líneas*) of stops
(*paradas*) and carry passengers (*pasajeros*). At each stop, passengers who
travel to it get off. Then passengers waiting there board: the bus scans the
stop's queue greedily, up to its free capacity, and takes passengers whose
destination lies further along the line. The model also covers the loaders
that read stops and lines from `;`-separated text records, and the factory
that builds one bus per line.

Modules, one per part of the program:

| module | models |
|---|---|
| `Seleccion` | order-preserving filtering and the greedy, capacity-bounded queue scan used at every stop; reading a sequence record by record |
| `Paradas` | `Parada` (a stop and its waiting queue) and `Pasajero` (a value: id and destination) |
| `Lineas` | `Linea`: a duplicate-free stop list and the stop→index map rebuilt on every append |
| `Colectivos` | `Colectivo`: the passenger manifest, alighting, boarding with ratings, and the occupancy history |
| `Simulacion` | the lap engine of `src/logic/Simulador.java` (positions, laps, rounds, termination) |
| `VueltaUnica` | the older single-lap run of `src/util/Simulador.java` |
| `Texto` | the parts of `java.lang` the loaders rely on: `String.trim`, `String.split` and `Integer.parseInt` |
| `Datos` | the loader of `src/io/Datos.java` |
| `CargaDeDatos` | the older loader of `src/util/CargaDeDatos.java` |
| `AdministracionColectivos` | `Colectivos.generarColectivos` |

Classes are used where the program updates fields in place: `Parada`, `Linea`,
`Colectivo` and both `Simulador`s. Their methods carry `modifies` clauses. Up
to one vehicle's turn at a stop, each method states the whole new state. The
methods that run a round or a whole simulation state positions, laps, the
round flag and the structure of the log; they leave the passengers to the
per-turn contracts (see "## Left out"). The loops that scan a list are proved
against a function that specifies them: `Filtro`, `Seleccionar`,
`MapaIndices`, `Agregados`, `Registros`, `Acumular`, `Ceros`,
`Calificaciones` and, for a round of the lap engine, `Turnos`. The loops that
run rounds until the simulation ends are proved by a decreasing measure and
an invariant. The properties the program promises are then proved as lemmas
about those functions.

Other code the core calls is modelled as follows:

- `Pasajero.quiereSubirA` is a fixed parameter of the engine (`QuiereSubir`).
- Each call to `Pasajero.calificarAlSubir` is recorded as a `Calificacion`.
- Console and view output is kept as an event log (`eventos`).
- Warnings are returned as lists.
- Each input file is given as the sequence of its text lines.

## Model

| member | source | states |
|---|---|---|
| Seleccion.Filtro | src/domain/Colectivo.java:77-88 | keeping the elements that satisfy a test never lengthens a list |
| Seleccion.FiltroCumple | src/domain/Colectivo.java:82-84 | every element kept by the filter satisfies the test |
| Seleccion.FiltroConcat | src/domain/Colectivo.java:79-86 | filtering distributes over concatenation (the scan handles elements one at a time) |
| Seleccion.FiltroParticion | src/domain/Colectivo.java:77-88 | the elements kept and the elements rejected together are a permutation of the input |
| Seleccion.FiltroDeRechazados | src/domain/Colectivo.java:82-84 | nothing that fails the test survives a filter on it |
| Seleccion.FiltroDeAceptados | src/domain/Colectivo.java:77-88 | filtering a list whose every element passes changes nothing |
| Seleccion.BarridoInicio | src/domain/Colectivo.java:78-79 | the removal scan starts with the cursor at 0 and nothing removed |
| Seleccion.BarridoToma | src/domain/Colectivo.java:82-85 | removing the element under the cursor keeps the scan invariant |
| Seleccion.BarridoDeja | src/domain/Colectivo.java:80-82 | skipping the element under the cursor keeps the scan invariant |
| Seleccion.BarridoFin | src/domain/Colectivo.java:80-87 | at the end of the scan, the removed elements are the filter of the original list and what is left is the filter by the negated test |
| Seleccion.Seleccionar | src/domain/Parada.java:36-49 | the greedy scan splits the queue into taken and remaining (lengths add up to the queue) and takes at most `espacio` elements, none when `espacio` ≤ 0 |
| Seleccion.SeleccionCumple | src/domain/Parada.java:42 | every taken element satisfies the boarding test |
| Seleccion.RecorridoInicio | src/domain/Parada.java:37-38 | the iterator scan starts at cursor 0 with nothing taken |
| Seleccion.RecorridoToma | src/domain/Parada.java:42-44 | taking the element under the cursor (`it.remove()`) keeps the scan invariant |
| Seleccion.RecorridoDeja | src/domain/Parada.java:41-42 | leaving the element under the cursor keeps the scan invariant |
| Seleccion.RecorridoFin | src/domain/Parada.java:40 | when the queue is exhausted or the result is full, the taken list and the queue are what the greedy scan specifies |
| Seleccion.Corte | src/domain/Parada.java:40 | the number of elements the scan examines is at most the queue length |
| Seleccion.CorteEsPrimero | src/domain/Parada.java:40 | the scan stops at the first point where the accepted elements reach `espacio`, or at the end of the queue |
| Seleccion.SeleccionHastaCorte | src/domain/Parada.java:40-46 | before the stopping point, the accepted elements are taken and the rejected ones stay in order; everything after the stopping point is untouched |
| Seleccion.SeleccionPermutacion | src/domain/Parada.java:36-48 | the taken elements plus the remaining queue are a permutation of the original queue |
| Seleccion.SeleccionCompleta | src/domain/Parada.java:40-46 | greedy completeness: if fewer than `espacio` were taken, nobody left in the queue qualifies |
| Seleccion.LeidosUltimo | src/io/Datos.java:88-93 | reading one more record appends its result, and its warnings, after the earlier ones |
| Seleccion.PresentesConcat | src/io/Datos.java:88-93 | what two parts of a file yield is what the first part yields, then what the second does |
| Seleccion.ConcatenadosConcat | src/io/Datos.java:88-93 | the warnings of two parts of a file are those of the first part, then those of the second |
| Seleccion.PresentesSon | src/io/Datos.java:89-91 | a value is among those read exactly when some record yields it |
| Seleccion.LeidosVacios | src/io/Datos.java:89-91 | records that yield nothing contribute no value and no warning |
| Paradas.Parada.constructor | src/domain/Parada.java:22-25 | a new stop has the given id and address and an empty queue |
| Paradas.Parada.SeleccionarPasajerosParaSubir | src/domain/Parada.java:36-49 | the result and the queue left behind are exactly the greedy scan of the old queue by destination set and space |
| Paradas.Parada.AgregarPasajero | src/domain/Parada.java:73-75 | the passenger is appended at the end of the queue and nothing else changes |
| Lineas.MapaIndices | src/domain/Linea.java:29-34 | the rebuilt map has exactly the listed stops as keys |
| Lineas.MapaIndicesCorrecto | src/domain/Linea.java:29-34 | on a duplicate-free list, the rebuilt map sends every stop to its zero-based index and has no other keys |
| Lineas.IndiceFuturoEnLista | src/domain/Linea.java:46-49 | with a consistent map, the index lookup holds iff the stop occurs in the list after position `k` |
| Lineas.AgregadosCorrecto | src/domain/Linea.java:55-60 | adding stops one at a time gives a list without duplicates, holding exactly the offered stops |
| Lineas.AgregadosExtiende | src/domain/Linea.java:55-60 | offering more stops only extends the list at its end |
| Lineas.AgregarIndice | src/domain/Linea.java:56-58 | appending a new stop keeps the list duplicate-free, and the rebuilt map is correct and keeps every earlier index |
| Lineas.Linea.constructor | src/domain/Linea.java:18-22 | a new line has the given code, no stops and an empty map |
| Lineas.Linea.ActualizarMapaIndices | src/domain/Linea.java:29-34 | the map is cleared and refilled from the list (see MapaIndicesCorrecto for what that means) |
| Lineas.Linea.ParadaEstaEnPosicionFutura | src/domain/Linea.java:46-49 | a read-only lookup that holds iff the stop is on the line at an index greater than the given position |
| Lineas.Linea.AgregarParada | src/domain/Linea.java:55-60 | a stop already present leaves list and map unchanged; a new stop is appended at the end; earlier indices stay; the list stays duplicate-free and the map consistent |
| Colectivos.Calificaciones | src/domain/Colectivo.java:46 | exactly one rating call per boarder |
| Colectivos.CalificacionesAgregar | src/domain/Colectivo.java:44-46 | boarding one more passenger adds its rating call, with the next slot, at the end |
| Colectivos.CalificacionesPosicion | src/domain/Colectivo.java:46 | the k-th rating call names the k-th boarder, and its slot is that boarder's zero-based position in the new manifest, past everyone already on board; later boarders get higher slots |
| Colectivos.Colectivo.constructor | src/domain/Colectivo.java:23-26 | a new bus has the given id and line, an empty manifest and an empty history |
| Colectivos.Colectivo.SubirPasajerosDesdeParada | src/domain/Colectivo.java:37-51 | boarders and the queue left behind are the greedy scan of the old queue by `puedeSubir`, bounded by `maxCapacidad − size`; boarders are appended to the manifest in queue order; each is rated once with its slot |
| Colectivos.Colectivo.SubirPasajerosHacia | src/util/Simulador.java:37 | the boarding call of the single-lap revision: the stop selects by destination set up to the free space, and the boarders are appended to the manifest |
| Colectivos.Colectivo.PuedeSubir | src/domain/Colectivo.java:53-56 | holds iff the destination is on the line after the current position and `quiereSubirA` holds |
| Colectivos.Colectivo.DestinoEstaEnRecorridoFuturo | src/domain/Colectivo.java:66-70 | holds iff the destination occurs on the line at an index greater than the current position |
| Colectivos.Colectivo.BajarPasajerosEn | src/domain/Colectivo.java:77-88 | returns, in on-board order, exactly the passengers whose destination is the stop; the others stay on board in order |
| Colectivos.Colectivo.RegistrarOcupacionTramo | src/domain/Colectivo.java:94-96 | appends the manifest size to the history and changes nothing else |
| Colectivos.BajarDosVeces | src/domain/Colectivo.java:82-84 | alighting twice at the same stop with nothing in between: the second call returns nobody |
| Colectivos.BajarParticiona | src/domain/Colectivo.java:77-88 | nobody left on board travels to the stop; everyone who got off does; together they are the old manifest |
| Colectivos.AtenderParadaCapacidad | src/domain/Colectivo.java:38-41 | serving a stop never overfills a bus that was within capacity; a bus still full after alighting boards nobody |
| Colectivos.AtenderParadaConserva | src/domain/Colectivo.java:40-49 | nobody is lost or created at a stop: those who got off, those on board and those waiting are the passengers from before |
| Colectivos.AtenderParadaNadieBajaAqui | src/logic/Simulador.java:80-82 | after serving a stop, nobody on board travels to that stop |
| Simulacion.InicialConsistente | src/logic/Simulador.java:34-39 | a bus at position 0 with 0 laps is in a consistent state |
| Simulacion.AvanzarConserva | src/logic/Simulador.java:62-74 | every turn keeps the state consistent; a bus with laps ≥ max is not processed, reports inactive and keeps position and laps; a bus reporting inactive has used up its laps |
| Simulacion.AvanzarDescuenta | src/logic/Simulador.java:62-116 | the measure (max laps − laps)·(route length + 1) − position drops by exactly one on every turn of a bus with laps left, and is 0 once it is retired |
| Simulacion.RestanteInicial | src/logic/Simulador.java:34-39 | a new bus has exactly `max laps · (route length + 1)` turns of work, or none when max laps ≤ 0 |
| Simulacion.RetiradoAlFinal | src/logic/Simulador.java:107-116 | a retired bus has run all its laps and stands at the end of its route (or at 0 if it had no laps to run) |
| Simulacion.SumaBaja | src/logic/Simulador.java:48-57 | changing one bus's progress without raising its remaining work does not raise the fleet's total; lowering it lowers the total |
| Simulacion.Ceros | src/logic/Simulador.java:34-39 | the initial map has exactly the listed buses as keys, each with value 0 |
| Simulacion.CerosAgregar | src/logic/Simulador.java:35-38 | one more loop pass puts the next bus at 0 |
| Simulacion.ProgresoActualizado | src/logic/Simulador.java:93 | replacing one bus's progress by a consistent one keeps every bus consistent |
| Simulacion.RetiradosAgregar | src/logic/Simulador.java:51-55 | an inactive turn that leaves the bus retired extends the retired prefix of the round |
| Simulacion.AvanzarInactivo | src/logic/Simulador.java:66-73 | a bus whose turn reports inactive has used up its laps; a bus that has used them up is left as it was and reports inactive |
| Simulacion.Turnos | src/logic/Simulador.java:51-55 | a round of turns keeps an entry for every bus that had one |
| Simulacion.TurnosIntacto | src/logic/Simulador.java:51-55 | a bus that no turn so far names keeps its position and laps |
| Simulacion.TurnosRetira | src/logic/Simulador.java:51-55 | a bus that, as it stood when the round began, would report inactive has used up its laps once its turn has come, even if it is listed again |
| Simulacion.TurnoActivo | src/logic/Simulador.java:52-53 | one more turn leaves the round active iff it was, or that bus would report active as it stood when the round began |
| Simulacion.TurnosActivoPrefijo | src/logic/Simulador.java:50-55 | after the first `n` turns the round flag is set iff one of those entries would report active as it stood when the round began |
| Simulacion.TurnosActivo | src/logic/Simulador.java:48-57 | a round is active iff some listed bus, as it stood when the round began, would report active; listing a bus twice does not change that |
| Simulacion.TurnosUnaVez | src/logic/Simulador.java:51-55 | without repetitions each bus steps exactly once per round, from the position and laps it had when the round began |
| Simulacion.Simulador.constructor | src/logic/Simulador.java:27-31 | right after construction every listed bus is at position 0 with 0 laps, and nothing has been logged |
| Simulacion.Simulador.InicializarColectivos | src/logic/Simulador.java:34-39 | puts 0 into both maps for every listed bus and leaves other entries as they were |
| Simulacion.Simulador.Ejecutar | src/logic/Simulador.java:44-60 | the loop terminates; on exit every bus has run exactly max laps (or 0) and stands at the end of its route (or at 0) |
| Simulacion.Simulador.Ronda | src/logic/Simulador.java:49-56 | a round logs its number; positions, laps and the returned flag are those of `Turnos` over the whole list, so the flag is true iff some bus, as it stood when the round began, reports active; the remaining work never rises and drops when the flag is true; a false flag means every bus is retired |
| Simulacion.Simulador.Turno | src/logic/Simulador.java:51-55 | one bus's turn keeps the round invariant; the flag becomes (flag before) or (this turn reports active) |
| Simulacion.Simulador.ProcesarColectivoEnParada | src/logic/Simulador.java:62-74 | the bus moves as `Avanzar` says (retired, stop, or end-of-route branch); only its own entries in `posiciones` and `vueltas` change; within its route it serves the stop at its position |
| Simulacion.Simulador.ProcesarParada | src/logic/Simulador.java:76-95 | at `paradas[pos]`: alight, board, log, record occupancy once, position becomes `pos + 1`, laps unchanged, reports active, remaining work drops |
| Simulacion.Simulador.ServirParada | src/logic/Simulador.java:77-91 | arrival, alighting, boarding, reports, occupancy append, and the full-bus warning only when the manifest size equals capacity, in this order |
| Simulacion.Simulador.ContarPasajerosConDestinoValido | src/logic/Simulador.java:97-105 | returns the number of waiting passengers for whom `quiereSubirA` holds, and changes no state |
| Simulacion.Simulador.ProcesarFinDeRecorrido | src/logic/Simulador.java:107-116 | laps grow by exactly one; position resets to 0 and the bus reports active iff the new count is below max; otherwise position stays at route length |
| Texto.RecortarInicio | src/io/Datos.java:69-70 | dropping leading blanks gives a suffix that does not start with a blank |
| Texto.RecortarInicioDescarta | src/io/Datos.java:69-70 | everything dropped from the front is blank |
| Texto.RecortarFin | src/io/Datos.java:69-70 | dropping trailing blanks gives a prefix that does not end with a blank |
| Texto.RecortarFinDescarta | src/io/Datos.java:69-70 | everything dropped from the end is blank |
| Texto.Trim | src/io/Datos.java:65 | `String.trim` gives a string with no blank at either end |
| Texto.TrimVacio | src/io/Datos.java:65 | a line trims to empty exactly when it is all blanks |
| Texto.RecortarInicioBlancos | src/io/Datos.java:69 | blanks in front of a string that does not start with a blank are exactly what is dropped |
| Texto.RecortarFinBlancos | src/io/Datos.java:69 | blanks after a string that does not end with a blank are exactly what is dropped |
| Texto.TrimDeshaceRelleno | src/io/Datos.java:69-70 | trim undoes padding with blanks on both sides |
| Texto.TrimRecortado | src/io/Datos.java:69-70 | trimming a string with no blank at either end changes nothing |
| Texto.Trozos | src/io/Datos.java:67 | splitting gives at least one piece |
| Texto.TrozosSinSep | src/io/Datos.java:67 | no piece contains the separator |
| Texto.UnirTrozos | src/io/Datos.java:67 | joining the pieces with the separator gives back the string |
| Texto.TrozosPrefijo | src/io/Datos.java:67 | a separator-free field followed by the separator is the first piece |
| Texto.TrozosSinSeparador | src/io/Datos.java:67 | a string without the separator is a single piece |
| Texto.TrozosUnir | src/io/Datos.java:67 | joining separator-free pieces and splitting again gives back the pieces |
| Texto.SinVaciosFinales | src/io/Datos.java:67 | dropping trailing empty pieces keeps a prefix whose last piece is not empty |
| Texto.SinVaciosFinalesVacios | src/io/Datos.java:67 | only empty pieces are dropped |
| Texto.DividirSinSeparador | src/io/Datos.java:67 | no field returned by `split` contains the separator |
| Texto.DividirPrefijo | src/io/Datos.java:67 | `split` returns a prefix of all the pieces, losing only trailing empty ones |
| Texto.DividirUnir | src/io/Datos.java:67 | separator-free fields with a non-empty last one, joined, split back into themselves |
| Texto.ParseInt | src/io/Datos.java:69 | a result is a 32-bit integer; a failure carries the offending text; a success starts with a sign or a digit |
| Texto.Digitos | src/io/Datos.java:69 | decimal writing is a non-empty string of digits |
| Texto.ValorDeDigitos | src/io/Datos.java:69 | reading the digits back gives the number |
| Texto.ParseIntDecimal | src/io/Datos.java:69 | `parseInt` reads back every 32-bit integer as `Integer.toString` writes it |
| Texto.DecimalSinSeparador | src/io/Datos.java:69 | a written number has no blank and no `;` |
| Texto.ParseIntRechaza | src/io/Datos.java:69 | an empty string, a lone sign, or a string starting with something other than a sign or digit is a NumberFormatException |
| Datos.ParsearParada | src/io/Datos.java:64-74 | a blank or `#` line gives nothing; a stop read has a 32-bit id and a trimmed address |
| Datos.DosCampos | src/io/Datos.java:67 | two non-empty, separator-free fields joined by `;` split back into those two |
| Datos.NoSalteable | src/io/Datos.java:65 | a line with a `;` that does not start with `#` is not skipped |
| Datos.ParsearParadaEscrita | src/io/Datos.java:64-74 | round trip: the record `id;direccion` parses back to that stop for every 32-bit id and trimmed, non-empty, `;`-free address |
| Datos.RegistroIndentado | src/io/Datos.java:65-69 | an indented record is not skipped and its id field trims to the id |
| Datos.ComentarioSinRecortar | src/io/Datos.java:65 | the comment test is on the untrimmed line: `#a;c` is skipped, but an indented `#a;c` is read and fails as a number |
| Datos.RegistrosUltimo | src/io/Datos.java:47-51 | one more record: a failure aborts, a skipped line registers nothing, a stop is put under its id |
| Datos.RegistrosFalla | src/io/Datos.java:47-51 | the load fails iff some record fails, and then with the first such failure |
| Datos.RegistrosFallaPrefijo | src/io/Datos.java:47-52 | once a prefix fails, the whole load fails the same way |
| Datos.RegistrosUltimoGana | src/io/Datos.java:48-50 | a loaded map holds exactly the ids some record defines, each with the address of the last such record |
| Datos.CargandoOmitida | src/io/Datos.java:49 | a skipped record keeps the loop invariant with the map unchanged |
| Datos.CargandoLeida | src/io/Datos.java:48-50 | a record read puts its stop under its id, keeping the loop invariant |
| Datos.CargandoFalla | src/io/Datos.java:48 | a record that fails makes the whole load fail with its failure |
| Datos.Cargado | src/io/Datos.java:56 | after the last record the map holds what the load registers |
| Datos.CargarParadas | src/io/Datos.java:42-57 | fails exactly as the record sequence does; otherwise maps each registered id to a new stop with that id and address and an empty queue |
| Datos.Campo | src/io/Datos.java:117-129 | a field gives at most one stop or one warning; an empty field gives nothing |
| Datos.CampoParada | src/io/Datos.java:120-123 | a field gives stop `p` exactly when it trims to an id that the map sends to `p` |
| Datos.JuntarConcat | src/io/Datos.java:116-131 | fields are handled independently, in order |
| Datos.JuntarParadas | src/io/Datos.java:116-131 | a stop is taken from a run of fields iff one of the fields gives it |
| Datos.CamposParadas | src/io/Datos.java:116-131 | a stop is on a parsed line iff some field names it, and it is there once |
| Datos.LecturaDeLinea | src/io/Datos.java:107-108 | a blank or `#` line gives no line |
| Datos.CamposDeUltimo | src/io/Datos.java:116-131 | one more field appends its stop and warning after the earlier ones |
| Datos.AgregadosUno | src/io/Datos.java:123 | offering a stop already on the line changes nothing; a new one is appended |
| Datos.AgregarCampo | src/io/Datos.java:117-130 | one loop pass: a known id adds its stop once; an unknown id or non-number only warns; an empty field does nothing |
| Datos.ParsearLinea | src/io/Datos.java:107-133 | null iff the line is skipped or has fewer than two fields; otherwise a new line whose code is the trimmed first field and whose stops are the named known stops in field order, each once, with every warning |
| Datos.AgregarCampos | src/io/Datos.java:116-131 | the field loop adds exactly the stops and warnings that the fields give, in order |
| Datos.LineasLeidasSon | src/io/Datos.java:88-93 | a line is loaded iff some record parses to it; skipped records give no line and no warning |
| Datos.Guardar | src/io/Datos.java:90-92 | a non-null line is appended to the list; a null one is dropped |
| Datos.CargarLineas | src/io/Datos.java:83-98 | returns the non-null parsed lines in file order, as distinct new objects, with every record's warnings in order |
| Datos.LeerRegistro | src/io/Datos.java:88-93 | one loop pass keeps the loader's invariant |
| CargaDeDatos.AcumularUltimo | src/util/CargaDeDatos.java:44-65 | one more record after a prefix that did not fail adds its line and its printed ids |
| CargaDeDatos.AcumularFallaPrefijo | src/util/CargaDeDatos.java:44-65 | once a record fails, nothing after it is handled |
| CargaDeDatos.AcumularFalla | src/util/CargaDeDatos.java:54 | the load fails iff some record fails, with the first failure |
| CargaDeDatos.AcumularSinFalla | src/util/CargaDeDatos.java:51-62 | without failures, a value is gathered iff some record yields it |
| CargaDeDatos.LeerParada | src/util/CargaDeDatos.java:22-27 | the inline stop parsing reads each record exactly as `Datos.parsearParada` does |
| CargaDeDatos.CargarParadas | src/util/CargaDeDatos.java:16-37 | the same map as `Datos.cargarParadas`: later ids overwrite earlier ones, and a malformed id aborts the load |
| CargaDeDatos.CampoEstricto | src/util/CargaDeDatos.java:52-61 | a non-number field fails with its trimmed text; otherwise a field gives at most one stop or one printed id |
| CargaDeDatos.LeerLinea | src/util/CargaDeDatos.java:45-64 | a skipped record gives nothing; every other record that does not fail gives a line, even one with only a code |
| CargaDeDatos.CampoCoincide | src/util/CargaDeDatos.java:52-61 | on an empty or numeric field both loaders take the same stop and warn the same way |
| CargaDeDatos.NoEncontradasConcat | src/util/CargaDeDatos.java:59 | warnings printed in two runs are those of each run in order |
| CargaDeDatos.CamposCoinciden | src/util/CargaDeDatos.java:51-62 | on fields that are all numbers or empty, both loaders take the same stops and warn about the same ids in order |
| CargaDeDatos.LineaCoincide | src/util/CargaDeDatos.java:45-64 | on a record with a code and at least one more field, none failing, both loaders read the same line and warnings |
| CargaDeDatos.SoloCodigo | src/util/CargaDeDatos.java:47-49 | a record with only a code gives an empty line here, while `Datos` gives none |
| CargaDeDatos.RegistroDeDos | src/util/CargaDeDatos.java:45-47 | a code and one field joined by `;` form a two-field record that is not skipped |
| CargaDeDatos.UnCampoNoNumerico | src/util/CargaDeDatos.java:54 | a single non-number field fails here and only warns in `Datos` |
| CargaDeDatos.CampoNoNumerico | src/util/CargaDeDatos.java:54 | a non-number stop id aborts the line load |
| CargaDeDatos.CampoNoNumericoEnDatos | src/io/Datos.java:127-129 | `Datos` only warns about the same record and keeps the line with no stops |
| CargaDeDatos.AgregarCampoEstricto | src/util/CargaDeDatos.java:52-61 | one inner-loop pass: adds the named stop once, prints an unknown id, or fails |
| CargaDeDatos.AgregarCamposEstrictos | src/util/CargaDeDatos.java:51-62 | the inner loop handles the fields in order until one fails; the line holds the named stops, each once |
| CargaDeDatos.LeerLineaTexto | src/util/CargaDeDatos.java:45-64 | one record: the new line object, the ids printed and the failure, exactly as `LeerLinea` specifies |
| CargaDeDatos.CargarLineas | src/util/CargaDeDatos.java:39-70 | the first failing record aborts the load (after the ids printed so far); otherwise every non-skipped record's line, in file order, as distinct new objects |
| VueltaUnica.SiguientesSon | src/util/Simulador.java:37 | the destination set offered when boarding is exactly the stops after `pos` |
| VueltaUnica.SiguientesComoLinea | src/util/Simulador.java:37 | on a consistent line, the offered set agrees with `paradaEstaEnPosicionFutura` and excludes the current stop |
| VueltaUnica.VisitaMuda | src/util/Simulador.java:47 | a log line that is not an arrival records no visit |
| VueltaUnica.RondaDe | src/util/Simulador.java:25 | a log line opens round `n` iff it is the header of round `n` |
| VueltaUnica.VisitasAgregadas | src/util/Simulador.java:34 | appending log lines appends the arrivals they record |
| VueltaUnica.RondasAgregadas | src/util/Simulador.java:25 | appending log lines appends the rounds they open |
| VueltaUnica.EventosDeParadaLeidos | src/util/Simulador.java:33-42 | the lines printed for a served stop record one arrival of that bus and open no round |
| VueltaUnica.TrasParada | src/util/Simulador.java:32-45 | after a served stop the log shows one more arrival of that bus and no new round |
| VueltaUnica.RondasTrasLinea | src/util/Simulador.java:25 | one more log line adds a round only if it is a round header |
| VueltaUnica.VisitasTrasLinea | src/util/Simulador.java:47 | one more non-arrival line adds no arrival |
| VueltaUnica.RondasSinAperturas | src/util/Simulador.java:28-49 | the lines printed during a round's turns open no round |
| VueltaUnica.SinAperturasSigue | src/util/Simulador.java:28-49 | two stretches of log without round headers make one |
| VueltaUnica.Numeracion | src/util/Simulador.java:22-51 | rounds are numbered 1, 2, …, n |
| VueltaUnica.NumeracionSigue | src/util/Simulador.java:51 | the next round gets the next number |
| VueltaUnica.RondasAlCerrar | src/util/Simulador.java:54 | the closing line opens no round |
| VueltaUnica.Veces | src/util/Simulador.java:28 | a bus is counted at most once per list entry |
| VueltaUnica.VecesEs | src/util/Simulador.java:28 | a bus is counted iff one of the entries holds it |
| VueltaUnica.PendientesBaja | src/util/Simulador.java:44 | moving buses forward never increases the stops still ahead; moving one strictly decreases them |
| VueltaUnica.PendientesTrasRonda | src/util/Simulador.java:28-49 | a round never increases the stops still ahead, and decreases them when some bus had not finished |
| VueltaUnica.MasLargo | src/util/Simulador.java:24-52 | the longest remaining route is non-negative |
| VueltaUnica.MasLargoEs | src/util/Simulador.java:24-52 | some bus has more than `r` stops ahead iff the longest remaining route exceeds `r` |
| VueltaUnica.UnaVez | src/util/Simulador.java:28 | in a list without repetitions each bus takes one turn per round |
| VueltaUnica.HayPendienteEs | src/util/Simulador.java:45 | the round flag is set iff some entry so far had not finished its route |
| VueltaUnica.HayPendienteEnLista | src/util/Simulador.java:26-45 | over a whole round, the flag says that some bus had not finished its route |
| VueltaUnica.TurnoEnRonda | src/util/Simulador.java:29-48 | one turn moves its bus once, only if it had not finished, and updates the round flag accordingly |
| VueltaUnica.RondaSinRepetidos | src/util/Simulador.java:28-49 | without repetitions, a round moves every bus one stop (up to the end), and it moved someone iff fewer rounds than the longest route have run |
| VueltaUnica.RondaQuieta | src/util/Simulador.java:46-48 | a round that moved nobody leaves every bus at the end of its route |
| VueltaUnica.ProgresoSigue | src/util/Simulador.java:24-52 | one more round keeps the count of rounds |
| VueltaUnica.ProgresoFinal | src/util/Simulador.java:24-52 | when the run stops on a list without repetitions, it has run the longest route plus one rounds |
| VueltaUnica.Simulador.CoherenteTrasParada | src/util/Simulador.java:32-44 | serving the stop at a bus's position and moving on keeps positions and log in agreement |
| VueltaUnica.Simulador.CoherenteTrasLinea | src/util/Simulador.java:47 | a non-arrival log line keeps positions and log in agreement |
| VueltaUnica.Simulador.EnRecorrido | src/util/Simulador.java:33 | the stop a bus serves is one of the stops of the routes |
| VueltaUnica.Simulador.ValidEnRuta | src/util/Simulador.java:29-32 | every bus's position is within its route |
| VueltaUnica.Simulador.constructor | src/util/Simulador.java:15-18 | every listed bus starts at position 0 |
| VueltaUnica.Simulador.Ejecutar | src/util/Simulador.java:20-55 | on exit every bus stands at the end of its route and has arrived at each of its stops exactly once, in route order; rounds are numbered 1, 2, …; without repetitions there are longest-route + 1 rounds; the last line is the closing one |
| VueltaUnica.Simulador.Finalizar | src/util/Simulador.java:54 | the closing line keeps every fact about visits and rounds and comes last |
| VueltaUnica.Simulador.AlArrancar | src/util/Simulador.java:21-22 | before the first round nothing has been counted |
| VueltaUnica.Simulador.Vuelta | src/util/Simulador.java:24-52 | one pass of the main loop keeps the count of rounds, and the stops still ahead shrink while the run goes on |
| VueltaUnica.Simulador.Ronda | src/util/Simulador.java:25-51 | each entry moves its bus once, up to the end of its route; the round reports movement iff some bus had not finished; the round's number is logged |
| VueltaUnica.Simulador.Turno | src/util/Simulador.java:28-49 | one turn keeps the round invariant |
| VueltaUnica.Simulador.ProcesarColectivo | src/util/Simulador.java:29-48 | within its route the bus serves the stop and moves to `pos + 1`; at the end it only reports completion, with position and manifest unchanged |
| VueltaUnica.Simulador.AtenderYAvanzar | src/util/Simulador.java:32-45 | alight, then board at `paradas[pos]`, then move to `pos + 1`, with the lines logged |
| VueltaUnica.Simulador.ServirParada | src/util/Simulador.java:33-42 | arrival, alighting, boarding towards the stops after `pos` up to capacity, then the report lines |
| AdministracionColectivos.GenerarColectivos | src/util/AdministracionColectivos.java:9-19 | one new, empty bus per line; the bus at index i has id i and runs `lineas[i]`; the buses are distinct and the lines are untouched |

## Left out

- File reading (`BufferedReader`/`FileReader`) is not modelled: each input file is the sequence of its lines. An `IOException` and its wrapping in a `RuntimeException` are not modelled.
- The console and view output (`VistaPorConsola`, `SimulacionOutput`, `System.out`) is kept as a log of events carrying the values printed. The text formatting is not modelled. Warnings on `System.err` are returned as a list of ids.
- `Configuracion` is not modelled: `MAX_CAPACIDAD` and `MAX_VUELTAS` are parameters of the engines.
- `EstadisticasSimulacion` is not modelled (floating-point averages). The engine only logs that it hands over to it.
- Passenger generation (`AdministracionPasajeros`, `CargaDePasajeros`) is not modelled: it is driven by `java.util.Random` and a global registry. Waiting queues are inputs.
- The satisfaction rating itself is not modelled, because `Pasajero.java` holds no rating rule. The model records each `calificarAlSubir` call with its slot and capacity. `Pasajero` is a value of an id and a destination.
- `Pasajero.quiereSubirA` has no body in the source, so it is a fixed parameter of the engine.
- `Colectivos.Colectivo.SubirPasajerosHacia`: the revision of `Colectivo` that `src/util/Simulador.java:37` calls (with a set of stops) is not in the source. It is modelled from that call as a delegation to `Parada.seleccionarPasajerosParaSubir` with the free space, with no rating calls.
- `Texto.ParseInt` accepts only ASCII digits. `Integer.parseInt` also accepts other Unicode decimal digits; those are not modelled.
- `VueltaUnica.Simulador.Ejecutar`: the round count (longest remaining route + 1) is proved only for vehicle lists without repetitions. A vehicle listed twice moves twice per round. `GenerarColectivos` always builds lists without repetitions.
- `Simulacion.Simulador.Ejecutar` does not state how many rounds the lap engine takes. It does state that the loop ends, using the remaining-work measure of `AvanzarDescuenta`, and what every vehicle's final state is.
- `Simulacion.Simulador.Ejecutar` and `Simulacion.Simulador.Ronda` state positions, laps, the round flag and the round header in the log. They do not state the manifests, waiting queues, occupancy histories, rating calls or log lines of a whole round or run. Those are stated per turn, by `ProcesarColectivoEnParada` (`TurnoCumplido`).
- `VueltaUnica.Simulador.Ejecutar` and `VueltaUnica.Simulador.Ronda` state positions, the round flag, the arrivals in the log and the round structure. They do not state the manifests or waiting queues after a round or a run. Those are stated per turn, by `ProcesarColectivo` and `AtenderYAvanzar`.

Where the description of the system and the code disagree, the model follows the code:

- The full-bus warning counts waiting passengers for whom `quiereSubirA` holds. It does not check that their destination is reachable (`src/logic/Simulador.java:97-105`).
- In the lap engine a bus does its own boarding scan with `puedeSubir`. It does not delegate to the stop's selection (`src/domain/Colectivo.java:37-51`). Only the single-lap revision delegates.
- A lap takes one round per stop plus one end-of-route round (`Simulacion.RestanteInicial`). So a two-stop lap ends in the third round, not the second.
- A bus on a route with no stops is retired only once it has run all its laps. Each lap is a single end-of-route round.
- When the maximum number of laps is 0 or negative, every bus stays at position 0 and is never processed.
- The older loader `CargaDeDatos.cargarLineas` fails on a record that splits into no fields, such as `;` (`partes[0]` does not exist). This is modelled as the error `SinCampos`.
- In `cargarLineas` a stop field that is not a number aborts the whole load. The newer `Datos` only warns about it.
