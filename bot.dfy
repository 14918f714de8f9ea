/** What the bot does with an incoming message and on each cron tick: the
    POST /webhook handler runs the command Commands.Dispatch recognised
    against the tables and sends one reply; the tick sends every due
    reminder to the owner and marks it sent. */
module Bot {
  import opened JsText
  import opened Tables
  import opened Commands

  /** The reply the handler sends, one constructor per sendWhatsAppMessage
      call. The answers of the external language model to /info and /quiz
      are not composed by the bot: they are named by their topic. */
  datatype Reply =
    | Ayuda
    | Uso(comando: Branch)
    | ValoresInvalidos
    | TareaAgregada(id: nat)
    | NoHayTareas
    | TareasPendientes(rows: seq<Tarea>)
    | TareaHecha(tarea: int)
    | TareaNoEncontrada(tarea: int)
    | ComponenteAgregado(nombre: string, stock: int, costo: string)
    | ComponenteActualizado(nombre: string, stock: int, costo: string)
    | ComponenteNoEncontrado(nombre: string)
    | ComponenteInfo(row: Componente)
    | RespuestaInfo(tema: string)
    | RespuestaQuiz(tema: string)
    | DescripcionFaltante
    | FechaHoraInvalida
    | RecordatorioGuardado(id: nat, fechaHora: Instant)
    | NoReconozco

  /** One line of the /listar reply. */
  function TareaLine(t: Tarea): string {
    "#" + NatToString(t.id) + " - " + t.descripcion + "\n"
  }

  /** The lines of the /listar reply, one per row, in row order. */
  function TareaLines(rows: seq<Tarea>): string {
    if rows == [] then [] else TareaLines(rows[..|rows| - 1]) + TareaLine(rows[|rows| - 1])
  }

  /** The listing of two runs of rows is the two listings one after the
      other. */
  lemma {:induction false} TareaLinesAppend(a: seq<Tarea>, b: seq<Tarea>)
    ensures TareaLines(a + b) == TareaLines(a) + TareaLines(b)
    decreases |b|
  {
    if b != [] {
      var b' := b[..|b| - 1];
      assert (a + b)[..|a + b| - 1] == a + b';
      TareaLinesAppend(a, b');
    } else {
      assert a + b == a;
    }
  }

  /** Row k of a listing is printed as its own line, after the lines of the
      rows before it and before the lines of the rows after it. */
  lemma {:induction false} ListingShowsRow(rows: seq<Tarea>, k: nat)
    requires k < |rows|
    ensures TareaLines(rows) == TareaLines(rows[..k]) + TareaLine(rows[k]) + TareaLines(rows[k + 1..])
  {
    var front, rest, back := rows[..k], rows[k..], rows[k + 1..];
    assert front + rest == rows;
    TareaLinesAppend(front, rest);
    assert rest == [rows[k]] + back;
    TareaLinesFirst(rows[k], back);
  }

  /** The listing of a row followed by others begins with that row's
      line. */
  lemma TareaLinesFirst(t: Tarea, rows: seq<Tarea>)
    ensures TareaLines([t] + rows) == TareaLine(t) + TareaLines(rows)
  {
    TareaLinesAppend([t], rows);
    assert [t][..0] == [];
  }

  /** The text of a reply as the handler writes it; None for the answers
      of the language model, whose words the bot does not compose. */
  function Text(r: Reply, showDate: Instant -> string): (t: Option<string>)
    ensures t.None? <==> r.RespuestaInfo? || r.RespuestaQuiz?
  {
    if r.RespuestaInfo? || r.RespuestaQuiz? then None else Some(Message(r, showDate))
  }

  /** The text the handler writes for a reply it composes itself.
      showDate stands for toISOString().slice(0,19).replace("T"," "). */
  function Message(r: Reply, showDate: Instant -> string): string
    requires !r.RespuestaInfo? && !r.RespuestaQuiz?
  {
    match r
    case Ayuda =>
      "¡Hola! Soy tu bot con ChatGPT. Comandos:\n"
      + "1) /tarea <desc>, /listar, /done <id>\n"
      + "2) /componente <nombre> <stock> <costo>, /vercomp <nombre>\n"
      + "3) /info <tema>\n"
      + "4) /quiz <tema>\n"
      + "5) /recordatorio <YYYY-MM-DD HH:MM> <texto>"
    case Uso(b) => (
      match b
      case OnTarea => "Uso: /tarea <descripción>"
      case OnDone => "Uso: /done <id> (número)."
      case OnComponente => "Uso: /componente <nombre> <stock> <costo>"
      case OnVercomp => "Uso: /vercomp <nombre>"
      case OnInfo => "Uso: /info <tema>"
      case OnQuiz => "Uso: /quiz <tema>"
      case _ => "Uso: /recordatorio <YYYY-MM-DD HH:MM> <texto>")
    case ValoresInvalidos => "Valores de stock/costo inválidos."
    case TareaAgregada(id) => "Tarea agregada con ID: " + NatToString(id)
    case NoHayTareas => "No hay tareas pendientes."
    case TareasPendientes(rows) => "Tareas pendientes:\n" + TareaLines(rows)
    case TareaHecha(id) => "Tarea #" + IntToString(id) + " marcada como hecha."
    case TareaNoEncontrada(id) => "No se encontró la tarea #" + IntToString(id) + " o ya está hecha."
    case ComponenteAgregado(nombre, stock, costo) =>
      "Componente " + nombre + " agregado. Stock=" + IntToString(stock) + ", CostoUnit=" + costo
    case ComponenteActualizado(nombre, stock, costo) =>
      "Componente " + nombre + " actualizado. Stock=" + IntToString(stock) + ", CostoUnit=" + costo
    case ComponenteNoEncontrado(nombre) => "No encuentro el componente \"" + nombre + "\"."
    case ComponenteInfo(c) =>
      "Componente: " + c.nombre + "\nStock: " + IntToString(c.stock) + "\nCosto Unit: " + c.costoUnitario
    case DescripcionFaltante => "Falta descripción."
    case FechaHoraInvalida => "Fecha/hora inválida (YYYY-MM-DD HH:MM)."
    case RecordatorioGuardado(id, when) => "Recordatorio #" + NatToString(id) + " guardado para " + showDate(when)
    case NoReconozco =>
      "No reconozco el comando.\n"
      + "Tus comandos: /tarea, /listar, /done, /componente, /vercomp, /info, /quiz, /recordatorio."
  }

  /** The /listar reply for a non-empty list: the header, then the rows
      appended one at a time as the forEach does. */
  method FormatTareas(rows: seq<Tarea>) returns (respuesta: string)
    ensures respuesta == "Tareas pendientes:\n" + TareaLines(rows)
  {
    respuesta := "Tareas pendientes:\n";
    var i := 0;
    while i < |rows|
      invariant 0 <= i <= |rows|
      invariant respuesta == "Tareas pendientes:\n" + TareaLines(rows[..i])
    {
      assert rows[..i + 1][..i] == rows[..i];
      respuesta := respuesta + TareaLine(rows[i]);
      i := i + 1;
    }
    assert rows[..i] == rows;
  }

  /** The reply to a command that reads no table: help, usage, invalid
      values, language-model answers, "No reconozco el comando"; None for
      an ignored message and for the commands the tables answer. */
  function ReplyWithoutTables(c: Command): Option<Reply> {
    match c
    case Help => Some(Ayuda)
    case UsoTarea => Some(Uso(OnTarea))
    case UsoDone => Some(Uso(OnDone))
    case UsoComponente => Some(Uso(OnComponente))
    case ComponenteInvalido => Some(ValoresInvalidos)
    case UsoVercomp => Some(Uso(OnVercomp))
    case UsoInfo => Some(Uso(OnInfo))
    case Info(tema) => Some(RespuestaInfo(tema))
    case UsoQuiz => Some(Uso(OnQuiz))
    case Quiz(tema) => Some(RespuestaQuiz(tema))
    case UsoRecordatorio => Some(Uso(OnRecordatorio))
    case FaltaDescripcion => Some(DescripcionFaltante)
    case FechaInvalida => Some(FechaHoraInvalida)
    case NoReconocido => Some(NoReconozco)
    case _ => None
  }

  /** The effect of one recognised command on the tables, and the reply
      it sends (None: no reply at all). Only an ignored message goes
      unanswered, "Falta descripción" answers only its own outcome, and
      only the four store commands touch the tables: a usage reply, an
      invalid value, a listing, a lookup or a language-model answer leaves
      them as they were. */
  function Respond(s: Snapshot, c: Command): (r: (Snapshot, Option<Reply>))
    ensures r.1.None? <==> c.Ignored?
    ensures (r.1.Some? && r.1.value.DescripcionFaltante?) <==> c.FaltaDescripcion?
    ensures r.0 != s ==> c.AgregarTarea? || c.Done? || c.AgregarComponente? || c.AgregarRecordatorio?
  {
    match c
    case AgregarTarea(desc) => (InsertTarea(s, desc), Some(TareaAgregada(s.nextTareaId)))
    case Listar =>
      var rows := PendingTareas(s.tareas);
      (s, Some(if rows == [] then NoHayTareas else TareasPendientes(rows)))
    case Done(id) =>
      (CompleteTarea(s, id), Some(if RowsWithId(s.tareas, id) > 0 then TareaHecha(id) else TareaNoEncontrada(id)))
    case AgregarComponente(nombre, cantidad, costo) =>
      (UpsertComponente(s, nombre, cantidad, costo),
       Some(match Lookup(s.inventario, nombre)
            case None => ComponenteAgregado(nombre, cantidad, costo)
            case Some(row) => ComponenteActualizado(nombre, row.stock + cantidad, costo)))
    case VerComponente(nombre) =>
      (s, Some(match Lookup(s.inventario, nombre)
               case None => ComponenteNoEncontrado(nombre)
               case Some(row) => ComponenteInfo(row)))
    case AgregarRecordatorio(desc, when) =>
      (InsertRecordatorio(s, desc, when), Some(RecordatorioGuardado(s.nextRecordatorioId, when)))
    case _ => (s, ReplyWithoutTables(c))
  }

  /** The statements of the branch of the POST /webhook handler that
      handles c: the table operations it calls and the reply it chooses. */
  method Execute(db: Database, c: Command) returns (reply: Option<Reply>)
    requires db.Valid()
    modifies db
    ensures db.Valid()
    ensures (db.State(), reply) == Respond(old(db.State()), c)
  {
    if c.AgregarTarea? || c.Listar? || c.Done? {
      reply := ExecuteTareas(db, c);
    } else if c.AgregarComponente? || c.VerComponente? {
      reply := ExecuteInventario(db, c);
    } else if c.AgregarRecordatorio? {
      var newId := db.AgregarRecordatorio(c.descripcion, c.fechaHora);
      reply := Some(RecordatorioGuardado(newId, c.fechaHora));
    } else {
      reply := ReplyWithoutTables(c);
    }
  }

  /** The /tarea, /listar and /done branches. */
  method ExecuteTareas(db: Database, c: Command) returns (reply: Option<Reply>)
    requires db.Valid()
    requires c.AgregarTarea? || c.Listar? || c.Done?
    modifies db
    ensures db.Valid()
    ensures (db.State(), reply) == Respond(old(db.State()), c)
  {
    match c
    case AgregarTarea(desc) =>
      var newId := db.AgregarTarea(desc);
      reply := Some(TareaAgregada(newId));
    case Listar =>
      var tareas := db.ListarTareas();
      reply := Some(if |tareas| == 0 then NoHayTareas else TareasPendientes(tareas));
    case Done(idNum) =>
      var changes := db.MarcarTareaHecha(idNum);
      reply := Some(if changes > 0 then TareaHecha(idNum) else TareaNoEncontrada(idNum));
  }

  /** The /componente and /vercomp branches. */
  method ExecuteInventario(db: Database, c: Command) returns (reply: Option<Reply>)
    requires db.Valid()
    requires c.AgregarComponente? || c.VerComponente?
    modifies db
    ensures db.Valid()
    ensures (db.State(), reply) == Respond(old(db.State()), c)
  {
    match c
    case AgregarComponente(nombre, stock, costo) =>
      var inserted, nuevoStock := db.AgregarComponente(nombre, stock, costo);
      reply := Some(if inserted then ComponenteAgregado(nombre, stock, costo)
                    else ComponenteActualizado(nombre, nuevoStock, costo));
    case VerComponente(nombre) =>
      var row := db.VerComponente(nombre);
      reply := Some(if row.None? then ComponenteNoEncontrado(nombre) else ComponenteInfo(row.value));
  }

  /** The text handed to sendWhatsAppMessage for a reply; the pending-tarea
      list is built line by line by FormatTareas. */
  method Render(reply: Option<Reply>, showDate: Instant -> string) returns (sent: Option<string>)
    ensures sent == if reply.None? then None else Text(reply.value, showDate)
  {
    if reply.Some? && reply.value.TareasPendientes? {
      var respuesta := FormatTareas(reply.value.rows);
      sent := Some(respuesta);
    } else {
      sent := if reply.None? then None else Text(reply.value, showDate);
    }
  }

  /** The POST /webhook handler for one message: recognise the command,
      run its statements on the tables, and return the reply and the text
      sent (None for a language-model answer, whose text is foreign). */
  method Webhook(db: Database, from: string, body: Option<string>,
                 parseDate: string -> Option<Instant>, showDate: Instant -> string)
    returns (reply: Option<Reply>, sent: Option<string>)
    requires db.Valid()
    modifies db
    ensures db.Valid()
    ensures (db.State(), reply) == Respond(old(db.State()), Dispatch(from, body, parseDate))
    ensures sent == if reply.None? then None else Text(reply.value, showDate)
  {
    var c := Dispatch(from, body, parseDate);
    reply := Execute(db, c);
    sent := Render(reply, showDate);
  }

  // ---------------------------------------------------------------------
  // properties of the handler

  /** A message from any other number gets no reply and changes no
      table. */
  lemma ForeignSenderIgnored(s: Snapshot, from: string, body: Option<string>, parseDate: string -> Option<Instant>)
    requires from != MyWhatsAppNumber
    ensures Respond(s, Dispatch(from, body, parseDate)) == (s, None)
  {
  }

  /** Every message from the owner gets exactly one reply, and it is never
      "Falta descripción.". */
  lemma OwnerAlwaysAnswered(s: Snapshot, body: Option<string>, parseDate: string -> Option<Instant>)
    ensures var reply := Respond(s, Dispatch(MyWhatsAppNumber, body, parseDate)).1;
      reply.Some? && reply != Some(DescripcionFaltante)
  {
    var c := Dispatch(MyWhatsAppNumber, body, parseDate);
  }

  /** Every command keeps the ids increasing and below their counters and
      the component names unique. */
  lemma RespondKeepsValid(s: Snapshot, c: Command)
    requires s.Valid()
    ensures Respond(s, c).0.Valid()
  {
    match c
    case AgregarTarea(desc) => InsertTareaFresh(s, desc);
    case Done(id) => MarkDoneKeepsIds(s.tareas, id);
    case AgregarComponente(nombre, cantidad, costo) =>
      UpsertKeepsValid(s.inventario, nombre, cantidad, costo, s.nextComponenteId);
    case AgregarRecordatorio(desc, when) => InsertRecordatorioFresh(s, desc, when);
    case _ =>
  }

  /** /tarea adds one pending row at the end with an id greater than every
      id in the table, keeps every other row and table, and reports that
      id. */
  lemma TareaAdded(s: Snapshot, desc: string)
    requires s.Valid()
    ensures var (s', reply) := Respond(s, AgregarTarea(desc));
      && |s'.tareas| == |s.tareas| + 1
      && s'.tareas[..|s.tareas|] == s.tareas
      && s'.tareas[|s.tareas|] == Tarea(s.nextTareaId, desc, false)
      && (forall t :: t in s.tareas ==> t.id < s.nextTareaId)
      && s'.inventario == s.inventario && s'.recordatorios == s.recordatorios
      && reply == Some(TareaAgregada(s.nextTareaId))
  {
    InsertTareaFresh(s, desc);
  }

  /** /listar changes nothing and answers "No hay tareas pendientes."
      exactly when every tarea is done; otherwise it lists exactly the
      pending tareas. */
  lemma ListarReply(s: Snapshot)
    ensures var (s', reply) := Respond(s, Listar);
      && s' == s
      && (reply == Some(NoHayTareas) <==> forall t :: t in s.tareas ==> t.hecha)
      && (reply != Some(NoHayTareas) ==>
            exists rows :: reply == Some(TareasPendientes(rows)) && forall t :: t in rows <==> t in s.tareas && !t.hecha)
  {
    var rows := PendingTareas(s.tareas);
    if rows != [] {
      assert rows[0] in rows;
    }
  }

  /** /done with an id no row carries changes nothing and answers "No se
      encontró". */
  lemma DoneMissing(s: Snapshot, id: int)
    requires forall t :: t in s.tareas ==> t.id != id
    ensures Respond(s, Done(id)) == (s, Some(TareaNoEncontrada(id)))
  {
    NoRowWithId(s.tareas, id);
    MarkDoneMissing(s.tareas, id);
  }

  /** /done with an id a row carries answers "marcada como hecha" (even when
      the row was already done, since the UPDATE still matches it), takes
      exactly that row off the pending list and leaves the other tables. */
  lemma DoneFound(s: Snapshot, k: nat)
    requires k < |s.tareas|
    ensures var id := s.tareas[k].id;
      var (s', reply) := Respond(s, Done(id));
      && (forall t :: t in PendingTareas(s'.tareas) <==> t in PendingTareas(s.tareas) && t.id != id)
      && s'.inventario == s.inventario && s'.recordatorios == s.recordatorios
      && reply == Some(TareaHecha(id))
  {
    var id := s.tareas[k].id;
    NoRowWithId(s.tareas, id);
    assert Respond(s, Done(id)) == (CompleteTarea(s, id), Some(TareaHecha(id)));
    MarkDonePending(s.tareas, id);
  }

  /** /componente inserts a row with stock = cantidad for a new name, and
      otherwise inserts nothing and adds cantidad to that row's stock; the
      reply reports the resulting stock; other names are untouched. */
  lemma ComponenteStored(s: Snapshot, nombre: string, cantidad: int, costo: string)
    ensures var (s', reply) := Respond(s, AgregarComponente(nombre, cantidad, costo));
      var nuevo := Lookup(s.inventario, nombre).None?;
      && |s'.inventario| == |s.inventario| + (if nuevo then 1 else 0)
      && StockOf(s'.inventario, nombre) == StockOf(s.inventario, nombre) + cantidad
      && (nuevo ==> Lookup(s'.inventario, nombre) == Some(Componente(s.nextComponenteId, nombre, cantidad, costo)))
      && (forall n :: n != nombre ==> Lookup(s'.inventario, n) == Lookup(s.inventario, n))
      && s'.tareas == s.tareas && s'.recordatorios == s.recordatorios
      && reply == Some(if nuevo then ComponenteAgregado(nombre, cantidad, costo)
                       else ComponenteActualizado(nombre, StockOf(s'.inventario, nombre), costo))
  {
    UpsertEffect(s.inventario, nombre, cantidad, costo, s.nextComponenteId);
  }

  /** /recordatorio with a valid date stores one unsent row at the end with
      a fresh id and reports that id. */
  lemma RecordatorioStored(s: Snapshot, desc: string, when: Instant)
    requires s.Valid()
    ensures var (s', reply) := Respond(s, AgregarRecordatorio(desc, when));
      && |s'.recordatorios| == |s.recordatorios| + 1
      && s'.recordatorios[..|s.recordatorios|] == s.recordatorios
      && s'.recordatorios[|s.recordatorios|] == Recordatorio(s.nextRecordatorioId, desc, when, false)
      && (forall r :: r in s.recordatorios ==> r.id < s.nextRecordatorioId)
      && s'.tareas == s.tareas && s'.inventario == s.inventario
      && reply == Some(RecordatorioGuardado(s.nextRecordatorioId, when))
  {
    InsertRecordatorioFresh(s, desc, when);
  }

  /** End to end: the owner's "/tarea <desc>" with a trimmed description
      inserts exactly that description. */
  lemma TareaMessage(s: Snapshot, desc: string, parseDate: string -> Option<Instant>)
    requires Trimmed(desc)
    ensures Respond(s, Dispatch(MyWhatsAppNumber, Some("/tarea " + desc), parseDate))
         == (InsertTarea(s, desc), Some(TareaAgregada(s.nextTareaId)))
  {
    TareaRoundTrip(desc, parseDate);
  }

  // ---------------------------------------------------------------------
  // the cron tick

  /** The text sent for one reminder. */
  function Notice(r: Recordatorio): string {
    "Recordatorio: " + r.descripcion
  }

  /** The texts sent for rows, in order. */
  function Notices(rows: seq<Recordatorio>): seq<string> {
    seq(|rows|, i requires 0 <= i < |rows| => Notice(rows[i]))
  }

  /** The texts among sent whose send got through; network(k) says
      whether the k-th send of the tick did. */
  function Delivered(sent: seq<string>, network: nat -> bool): seq<string> {
    if sent == [] then []
    else Delivered(sent[..|sent| - 1], network) + (if network(|sent| - 1) then [sent[|sent| - 1]] else [])
  }

  /** One cron tick at now: send a notice to the owner for each due
      reminder and mark it sent. sendWhatsAppMessage swallows its errors,
      so a row is marked whether or not its send got through: the new
      table does not depend on network. */
  method CronTick(db: Database, now: Instant, network: nat -> bool)
    returns (sent: seq<string>, delivered: seq<string>)
    requires db.Valid()
    modifies db
    ensures db.Valid()
    ensures db.State() == old(db.State()).(recordatorios := AfterTick(old(db.recordatorios), now))
    ensures sent == Notices(DueRecordatorios(old(db.recordatorios), now))
    ensures delivered == Delivered(sent, network)
  {
    ghost var before := db.State();
    var recordatorios := db.ObtenerRecordatoriosPendientes(now);
    sent, delivered := [], [];
    var i := 0;
    while i < |recordatorios|
      invariant 0 <= i <= |recordatorios|
      invariant db.Valid()
      invariant db.State() == before.(recordatorios := MarkEach(before.recordatorios, recordatorios[..i]))
      invariant sent == Notices(recordatorios[..i])
      invariant delivered == Delivered(sent, network)
    {
      var rec := recordatorios[i];
      assert recordatorios[..i + 1][..i] == recordatorios[..i];
      assert Notices(recordatorios[..i + 1]) == sent + [Notice(rec)];
      assert (sent + [Notice(rec)])[..|sent|] == sent;
      sent := sent + [Notice(rec)];
      if network(i) {
        delivered := delivered + [Notice(rec)];
      }
      db.MarcarRecordatorioEnviado(rec.id);
      i := i + 1;
    }
    assert recordatorios[..i] == recordatorios;
    MarkDueIsTick(before.recordatorios, before.nextRecordatorioId, now);
  }

  /** In a tick every due reminder is selected exactly once and its own
      notice is sent in its place, and a second tick at the same time
      sends nothing. */
  lemma TickSendsOnce(rs: seq<Recordatorio>, next: nat, now: Instant)
    requires IdsOk(RecordatorioIds(rs), next)
    ensures var due := DueRecordatorios(rs, now);
      && |Notices(due)| == |due|
      && (forall i :: 0 <= i < |due| ==> Notices(due)[i] == Notice(due[i]))
      && (forall x :: x in rs && IsDue(x, now) ==> multiset(due)[x] == 1)
    ensures Notices(DueRecordatorios(AfterTick(rs, now), now)) == []
  {
    DueOnce(rs, next, now);
    NothingDueAfterTick(rs, now);
  }
}
