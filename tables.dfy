/** The bot's three MySQL tables (tareas, inventario, recordatorios), held in
    memory: each row is a record, each table a sequence in AUTO_INCREMENT
    order with a counter for the next id. The queries are specified by pure
    functions over the sequences; the class Database runs them in place. */
module Tables {
  import opened JsText

  /** A DATETIME value; NOW() and fecha_hora are compared with <=. */
  type Instant = int

  /** A row of tareas: hecha is the TINYINT flag, false for 0. */
  datatype Tarea = Tarea(id: nat, descripcion: string, hecha: bool)

  /** A row of inventario. The FLOAT costo_unitario is kept as the text the
      user typed for it. */
  datatype Componente = Componente(id: nat, nombre: string, stock: int, costoUnitario: string)

  /** A row of recordatorios: enviado is the TINYINT flag, false for 0. */
  datatype Recordatorio = Recordatorio(id: nat, descripcion: string, fechaHora: Instant, enviado: bool)

  // ---------------------------------------------------------------------
  // AUTO_INCREMENT ids

  /** Ids are positive, below the table's counter and increase with the
      position of the row, so no two rows share an id. */
  ghost predicate IdsOk(ids: seq<nat>, next: nat) {
    && 1 <= next
    && (forall i :: 0 <= i < |ids| ==> 1 <= ids[i] < next)
    && (forall i, j :: 0 <= i < j < |ids| ==> ids[i] < ids[j])
  }

  function TareaIds(ts: seq<Tarea>): seq<nat> {
    seq(|ts|, i requires 0 <= i < |ts| => ts[i].id)
  }

  function ComponenteIds(cs: seq<Componente>): seq<nat> {
    seq(|cs|, i requires 0 <= i < |cs| => cs[i].id)
  }

  function RecordatorioIds(rs: seq<Recordatorio>): seq<nat> {
    seq(|rs|, i requires 0 <= i < |rs| => rs[i].id)
  }

  /** agregarComponente never inserts a second row with a name already
      present, so names identify rows. */
  ghost predicate UniqueNames(cs: seq<Componente>) {
    forall i, j :: 0 <= i < j < |cs| ==> cs[i].nombre != cs[j].nombre
  }

  /** The contents of the three tables and their AUTO_INCREMENT counters. */
  datatype Snapshot = Snapshot(
    tareas: seq<Tarea>, nextTareaId: nat,
    inventario: seq<Componente>, nextComponenteId: nat,
    recordatorios: seq<Recordatorio>, nextRecordatorioId: nat)
  {
    ghost predicate Valid() {
      && IdsOk(TareaIds(tareas), nextTareaId)
      && IdsOk(ComponenteIds(inventario), nextComponenteId)
      && UniqueNames(inventario)
      && IdsOk(RecordatorioIds(recordatorios), nextRecordatorioId)
    }
  }

  /** Freshly created tables: empty, every counter at 1. */
  const Empty := Snapshot([], 1, [], 1, [], 1)

  // ---------------------------------------------------------------------
  // tareas

  /** SELECT * FROM tareas WHERE hecha = 0, in id order */
  function PendingTareas(ts: seq<Tarea>): (r: seq<Tarea>)
    ensures forall t :: t in r <==> t in ts && !t.hecha
    ensures |r| <= |ts|
  {
    if ts == [] then []
    else
      var last := ts[|ts| - 1];
      assert ts == ts[..|ts| - 1] + [last];
      PendingTareas(ts[..|ts| - 1]) + (if last.hecha then [] else [last])
  }

  /** The number of rows whose id is id: what UPDATE ... WHERE id=? reports
      as affectedRows (mysql2 connects with FOUND_ROWS, so matched rows). */
  function RowsWithId(ts: seq<Tarea>, id: int): nat {
    if ts == [] then 0
    else RowsWithId(ts[..|ts| - 1], id) + (if ts[|ts| - 1].id == id then 1 else 0)
  }

  /** The UPDATE matches no row exactly when no row carries the id. */
  lemma {:induction false} NoRowWithId(ts: seq<Tarea>, id: int)
    ensures RowsWithId(ts, id) == 0 <==> forall i :: 0 <= i < |ts| ==> ts[i].id != id
  {
    if ts != [] {
      var init := ts[..|ts| - 1];
      NoRowWithId(init, id);
      assert forall i :: 0 <= i < |init| ==> init[i] == ts[i];
    }
  }

  /** UPDATE tareas SET hecha = 1 WHERE id=? */
  function MarkDone(ts: seq<Tarea>, id: int): (r: seq<Tarea>)
    ensures |r| == |ts|
    ensures forall i :: 0 <= i < |ts| ==>
      && r[i].id == ts[i].id && r[i].descripcion == ts[i].descripcion
      && r[i].hecha == (ts[i].hecha || ts[i].id == id)
  {
    seq(|ts|, i requires 0 <= i < |ts| => if ts[i].id == id then ts[i].(hecha := true) else ts[i])
  }

  /** With unique ids, an UPDATE by id matches at most one row. */
  lemma {:induction false} AtMostOneRow(ts: seq<Tarea>, next: nat, id: int)
    requires IdsOk(TareaIds(ts), next)
    ensures RowsWithId(ts, id) <= 1
  {
    if ts != [] {
      var init := ts[..|ts| - 1];
      assert TareaIds(init) == TareaIds(ts)[..|ts| - 1];
      AtMostOneRow(init, next, id);
      if ts[|ts| - 1].id == id {
        assert forall i :: 0 <= i < |init| ==> init[i].id != id by {
          forall i | 0 <= i < |init| ensures init[i].id != id {
            assert TareaIds(ts)[i] < TareaIds(ts)[|ts| - 1];
          }
        }
        NoRowWithId(init, id);
      }
    }
  }

  /** Marking id done takes exactly the row with that id off the pending
      list and leaves every other pending row in it. */
  lemma MarkDonePending(ts: seq<Tarea>, id: int)
    ensures forall t :: t in PendingTareas(MarkDone(ts, id)) <==> t in PendingTareas(ts) && t.id != id
  {
    var m := MarkDone(ts, id);
    forall t | t in m && !t.hecha ensures t in ts && t.id != id {
      var i :| 0 <= i < |m| && m[i] == t;
      assert ts[i] == t;
    }
    forall t | t in ts && !t.hecha && t.id != id ensures t in m {
      var i :| 0 <= i < |ts| && ts[i] == t;
      assert m[i] == t;
    }
  }

  /** An id no row carries leaves the table as it was. */
  lemma MarkDoneMissing(ts: seq<Tarea>, id: int)
    requires RowsWithId(ts, id) == 0
    ensures MarkDone(ts, id) == ts
  {
  }

  /** Marking never changes the ids, in particular not their order. */
  lemma MarkDoneKeepsIds(ts: seq<Tarea>, id: int)
    ensures TareaIds(MarkDone(ts, id)) == TareaIds(ts)
  {
  }

  // ---------------------------------------------------------------------
  // inventario

  /** SELECT * FROM inventario WHERE nombre=?: the position of rows[0], the
      first row with that name, if any. */
  function FindComponente(cs: seq<Componente>, nombre: string): (r: Option<nat>)
    ensures r.Some? ==> r.value < |cs| && cs[r.value].nombre == nombre
    ensures r.Some? ==> forall i :: 0 <= i < r.value ==> cs[i].nombre != nombre
    ensures r.None? <==> forall i :: 0 <= i < |cs| ==> cs[i].nombre != nombre
  {
    FindFrom(cs, nombre, 0)
  }

  function FindFrom(cs: seq<Componente>, nombre: string, from: nat): (r: Option<nat>)
    requires from <= |cs|
    requires forall i :: 0 <= i < from ==> cs[i].nombre != nombre
    ensures r.Some? ==> from <= r.value < |cs| && cs[r.value].nombre == nombre
    ensures r.Some? ==> forall i :: 0 <= i < r.value ==> cs[i].nombre != nombre
    ensures r.None? <==> forall i :: 0 <= i < |cs| ==> cs[i].nombre != nombre
    decreases |cs| - from
  {
    if from == |cs| then None
    else if cs[from].nombre == nombre then Some(from)
    else FindFrom(cs, nombre, from + 1)
  }

  /** The row verComponente shows for nombre. */
  function Lookup(cs: seq<Componente>, nombre: string): Option<Componente> {
    match FindComponente(cs, nombre)
    case None => None
    case Some(i) => Some(cs[i])
  }

  /** The stock recorded for nombre, 0 when there is no such row. */
  function StockOf(cs: seq<Componente>, nombre: string): int {
    match Lookup(cs, nombre)
    case None => 0
    case Some(c) => c.stock
  }

  /** agregarComponente: insert a new row (id nextId, stock = cantidad)
      when no row has the name, otherwise add cantidad to that row's stock
      and overwrite its cost. */
  function Upsert(cs: seq<Componente>, nombre: string, cantidad: int, costo: string, nextId: nat): (r: seq<Componente>)
    ensures |r| == |cs| + (if FindComponente(cs, nombre).None? then 1 else 0)
  {
    match FindComponente(cs, nombre)
    case None => cs + [Componente(nextId, nombre, cantidad, costo)]
    case Some(i) => cs[i := cs[i].(stock := cs[i].stock + cantidad, costoUnitario := costo)]
  }

  /** Upsert inserts a row exactly when the name is new, the row for the
      name afterwards holds the old stock plus cantidad and the new cost,
      and the row of every other name is the same as before. */
  lemma UpsertEffect(cs: seq<Componente>, nombre: string, cantidad: int, costo: string, nextId: nat)
    ensures var r := Upsert(cs, nombre, cantidad, costo, nextId);
      && |r| == |cs| + (if Lookup(cs, nombre).None? then 1 else 0)
      && Lookup(r, nombre) == Some(match Lookup(cs, nombre)
                                   case None => Componente(nextId, nombre, cantidad, costo)
                                   case Some(c) => c.(stock := c.stock + cantidad, costoUnitario := costo))
      && StockOf(r, nombre) == StockOf(cs, nombre) + cantidad
      && forall n :: n != nombre ==> Lookup(r, n) == Lookup(cs, n)
  {
    var r := Upsert(cs, nombre, cantidad, costo, nextId);
    forall n | n != nombre ensures Lookup(r, n) == Lookup(cs, n) {
      LookupSameNames(cs, r, n);
    }
    match FindComponente(cs, nombre)
    case None =>
      FindAt(r, nombre, |cs|);
    case Some(i) =>
      FindAt(r, nombre, i);
  }

  /** The first row carrying a name is the one FindComponente finds. */
  lemma FindAt(cs: seq<Componente>, nombre: string, k: nat)
    requires k < |cs| && cs[k].nombre == nombre
    requires forall i :: 0 <= i < k ==> cs[i].nombre != nombre
    ensures FindComponente(cs, nombre) == Some(k)
  {
    assert FindComponente(cs, nombre).Some?;
  }

  /** Two tables that agree on every row named n except, at one place,
      on a row named otherwise, look n up alike. */
  lemma LookupSameNames(cs: seq<Componente>, r: seq<Componente>, n: string)
    requires |cs| <= |r|
    requires forall i :: 0 <= i < |cs| ==> (cs[i].nombre == n || r[i].nombre == n) ==> r[i] == cs[i]
    requires forall i :: |cs| <= i < |r| ==> r[i].nombre != n
    ensures Lookup(r, n) == Lookup(cs, n)
  {
    match FindComponente(cs, n)
    case None =>
      assert forall i :: 0 <= i < |r| ==> r[i].nombre != n;
    case Some(k) =>
      FindAt(r, n, k);
  }

  /** Upsert keeps names unique and ids increasing, and takes a new id from
      the counter only when it inserts. */
  lemma UpsertKeepsValid(cs: seq<Componente>, nombre: string, cantidad: int, costo: string, nextId: nat)
    requires IdsOk(ComponenteIds(cs), nextId) && UniqueNames(cs)
    ensures var r := Upsert(cs, nombre, cantidad, costo, nextId);
      var next := if FindComponente(cs, nombre).None? then nextId + 1 else nextId;
      IdsOk(ComponenteIds(r), next) && UniqueNames(r)
  {
    var r := Upsert(cs, nombre, cantidad, costo, nextId);
    match FindComponente(cs, nombre)
    case None =>
      assert ComponenteIds(r) == ComponenteIds(cs) + [nextId];
    case Some(i) =>
      assert ComponenteIds(r) == ComponenteIds(cs);
  }

  // ---------------------------------------------------------------------
  // recordatorios

  /** The condition enviado=0 AND fecha_hora <= NOW() */
  predicate IsDue(r: Recordatorio, now: Instant) {
    !r.enviado && r.fechaHora <= now
  }

  /** obtenerRecordatoriosPendientes: the due rows, in id order */
  function DueRecordatorios(rs: seq<Recordatorio>, now: Instant): (r: seq<Recordatorio>)
    ensures forall x :: x in r <==> x in rs && IsDue(x, now)
    ensures |r| <= |rs|
  {
    if rs == [] then []
    else
      var last := rs[|rs| - 1];
      assert rs == rs[..|rs| - 1] + [last];
      DueRecordatorios(rs[..|rs| - 1], now) + (if IsDue(last, now) then [last] else [])
  }

  /** With unique ids, a tick selects every due reminder exactly once. */
  lemma {:induction false} DueOnce(rs: seq<Recordatorio>, next: nat, now: Instant)
    requires IdsOk(RecordatorioIds(rs), next)
    ensures forall x :: x in rs && IsDue(x, now) ==> multiset(DueRecordatorios(rs, now))[x] == 1
  {
    if rs != [] {
      var init, last := rs[..|rs| - 1], rs[|rs| - 1];
      assert RecordatorioIds(init) == RecordatorioIds(rs)[..|rs| - 1];
      DueOnce(init, next, now);
      assert rs == init + [last];
      forall x | x in rs && IsDue(x, now) ensures multiset(DueRecordatorios(rs, now))[x] == 1 {
        if x == last {
          forall i | 0 <= i < |init| ensures init[i] != x {
            assert RecordatorioIds(rs)[i] < RecordatorioIds(rs)[|rs| - 1];
          }
          assert x !in DueRecordatorios(init, now);
        }
      }
    }
  }

  /** UPDATE recordatorios SET enviado=1 WHERE id=? */
  function MarkEnviado(rs: seq<Recordatorio>, id: int): (r: seq<Recordatorio>)
    ensures |r| == |rs|
    ensures forall i :: 0 <= i < |rs| ==>
      && r[i].id == rs[i].id && r[i].descripcion == rs[i].descripcion && r[i].fechaHora == rs[i].fechaHora
      && r[i].enviado == (rs[i].enviado || rs[i].id == id)
  {
    seq(|rs|, i requires 0 <= i < |rs| => if rs[i].id == id then rs[i].(enviado := true) else rs[i])
  }

  /** The table after one cron tick at now: every due row is marked sent,
      every other row is as it was. */
  function AfterTick(rs: seq<Recordatorio>, now: Instant): (r: seq<Recordatorio>)
    ensures |r| == |rs|
    ensures forall i :: 0 <= i < |rs| ==>
      && r[i].id == rs[i].id && r[i].descripcion == rs[i].descripcion && r[i].fechaHora == rs[i].fechaHora
      && r[i].enviado == (rs[i].enviado || rs[i].fechaHora <= now)
  {
    seq(|rs|, i requires 0 <= i < |rs| => if IsDue(rs[i], now) then rs[i].(enviado := true) else rs[i])
  }

  /** After a tick at now, a later tick selects only reminders scheduled
      after now that were never sent: no reminder is dispatched twice. */
  lemma DueAfterTick(rs: seq<Recordatorio>, now: Instant, later: Instant)
    ensures forall x :: x in DueRecordatorios(AfterTick(rs, now), later) <==>
      x in rs && IsDue(x, later) && now < x.fechaHora
  {
    var a := AfterTick(rs, now);
    forall x | x in a && IsDue(x, later) ensures x in rs && now < x.fechaHora {
      var i :| 0 <= i < |a| && a[i] == x;
      assert a[i] == rs[i];
    }
    forall x | x in rs && IsDue(x, later) && now < x.fechaHora ensures x in a {
      var i :| 0 <= i < |rs| && rs[i] == x;
      assert a[i] == x;
    }
  }

  /** A tick at now leaves nothing due at now. */
  lemma NothingDueAfterTick(rs: seq<Recordatorio>, now: Instant)
    ensures DueRecordatorios(AfterTick(rs, now), now) == []
  {
    NoneDue(AfterTick(rs, now), now);
  }

  lemma {:induction false} NoneDue(rs: seq<Recordatorio>, now: Instant)
    requires forall i :: 0 <= i < |rs| ==> !IsDue(rs[i], now)
    ensures DueRecordatorios(rs, now) == []
  {
    if rs != [] {
      NoneDue(rs[..|rs| - 1], now);
    }
  }

  /** Two ticks in a row, at now1 and then at a later now2, leave the
      table as one tick at now2 does. */
  lemma TicksCompose(rs: seq<Recordatorio>, now1: Instant, now2: Instant)
    requires now1 <= now2
    ensures AfterTick(AfterTick(rs, now1), now2) == AfterTick(rs, now2)
  {
  }

  /** The table after marcarRecordatorioEnviado has run for each row of
      xs in turn. */
  function MarkEach(rs: seq<Recordatorio>, xs: seq<Recordatorio>): seq<Recordatorio> {
    if xs == [] then rs
    else MarkEnviado(MarkEach(rs, xs[..|xs| - 1]), xs[|xs| - 1].id)
  }

  /** Marking the rows of xs one by one sets enviado on exactly the rows
      whose id occurs in xs. */
  lemma {:induction false} MarkEachAt(rs: seq<Recordatorio>, xs: seq<Recordatorio>)
    ensures |MarkEach(rs, xs)| == |rs|
    ensures forall j :: 0 <= j < |rs| ==>
      MarkEach(rs, xs)[j] == if rs[j].id in RecordatorioIds(xs) then rs[j].(enviado := true) else rs[j]
  {
    if xs != [] {
      var init := xs[..|xs| - 1];
      MarkEachAt(rs, init);
      assert RecordatorioIds(xs) == RecordatorioIds(init) + [xs[|xs| - 1].id];
    }
  }

  /** With unique ids, a row's id is among the ids of the due rows exactly
      when the row itself is due. */
  lemma DueIds(rs: seq<Recordatorio>, next: nat, now: Instant, j: nat)
    requires IdsOk(RecordatorioIds(rs), next)
    requires j < |rs|
    ensures rs[j].id in RecordatorioIds(DueRecordatorios(rs, now)) <==> IsDue(rs[j], now)
  {
    var due := DueRecordatorios(rs, now);
    var ids := RecordatorioIds(due);
    if IsDue(rs[j], now) {
      assert rs[j] in due;
      var k :| 0 <= k < |due| && due[k] == rs[j];
      assert ids[k] == rs[j].id;
    }
    if rs[j].id in ids {
      var k :| 0 <= k < |ids| && ids[k] == rs[j].id;
      assert due[k] in rs;
      var m :| 0 <= m < |rs| && rs[m] == due[k];
      assert RecordatorioIds(rs)[m] == RecordatorioIds(rs)[j];
    }
  }

  /** Marking the due rows one by one, as the cron body does, gives the
      table after a tick. */
  lemma MarkDueIsTick(rs: seq<Recordatorio>, next: nat, now: Instant)
    requires IdsOk(RecordatorioIds(rs), next)
    ensures MarkEach(rs, DueRecordatorios(rs, now)) == AfterTick(rs, now)
  {
    var due := DueRecordatorios(rs, now);
    MarkEachAt(rs, due);
    forall j | 0 <= j < |rs| ensures MarkEach(rs, due)[j] == AfterTick(rs, now)[j] {
      DueIds(rs, next, now, j);
    }
  }

  // ---------------------------------------------------------------------
  // the statements each operation runs, on a whole Snapshot

  /** INSERT INTO tareas (descripcion, hecha) VALUES (?, 0): the new row
      is listed last among the pending ones, and the other tables are
      untouched. */
  function InsertTarea(s: Snapshot, descripcion: string): (r: Snapshot)
    ensures PendingTareas(r.tareas) == PendingTareas(s.tareas) + [Tarea(s.nextTareaId, descripcion, false)]
    ensures r.inventario == s.inventario && r.recordatorios == s.recordatorios
  {
    var t := Tarea(s.nextTareaId, descripcion, false);
    assert (s.tareas + [t])[..|s.tareas|] == s.tareas;
    s.(tareas := s.tareas + [t], nextTareaId := s.nextTareaId + 1)
  }

  function CompleteTarea(s: Snapshot, id: int): Snapshot {
    s.(tareas := MarkDone(s.tareas, id))
  }

  function UpsertComponente(s: Snapshot, nombre: string, cantidad: int, costo: string): Snapshot {
    s.(inventario := Upsert(s.inventario, nombre, cantidad, costo, s.nextComponenteId),
       nextComponenteId := if FindComponente(s.inventario, nombre).None? then s.nextComponenteId + 1
                           else s.nextComponenteId)
  }

  /** INSERT INTO recordatorios (descripcion, fecha_hora, enviado) VALUES
      (?, ?, 0): from its time on, every tick selects the new row after
      the ones it already selected; the other tables are untouched. */
  function InsertRecordatorio(s: Snapshot, descripcion: string, fechaHora: Instant): (r: Snapshot)
    ensures forall now ::
      DueRecordatorios(r.recordatorios, now) == DueRecordatorios(s.recordatorios, now)
        + (if fechaHora <= now then [Recordatorio(s.nextRecordatorioId, descripcion, fechaHora, false)] else [])
    ensures r.tareas == s.tareas && r.inventario == s.inventario
  {
    var x := Recordatorio(s.nextRecordatorioId, descripcion, fechaHora, false);
    assert (s.recordatorios + [x])[..|s.recordatorios|] == s.recordatorios;
    s.(recordatorios := s.recordatorios + [x], nextRecordatorioId := s.nextRecordatorioId + 1)
  }

  function MarkRecordatorioSent(s: Snapshot, id: int): Snapshot {
    s.(recordatorios := MarkEnviado(s.recordatorios, id))
  }

  /** Inserting a tarea gives it an id greater than every id in the table,
      keeps every existing row, and keeps the tables valid. */
  lemma InsertTareaFresh(s: Snapshot, descripcion: string)
    requires s.Valid()
    ensures var s' := InsertTarea(s, descripcion);
      && s'.Valid()
      && s'.tareas[..|s.tareas|] == s.tareas
      && s'.tareas[|s.tareas|] == Tarea(s.nextTareaId, descripcion, false)
      && forall t :: t in s.tareas ==> t.id < s.nextTareaId
  {
    var s' := InsertTarea(s, descripcion);
    assert TareaIds(s'.tareas) == TareaIds(s.tareas) + [s.nextTareaId];
    forall t | t in s.tareas ensures t.id < s.nextTareaId {
      var i :| 0 <= i < |s.tareas| && s.tareas[i] == t;
      assert TareaIds(s.tareas)[i] == t.id;
    }
  }

  /** The same for a reminder, which starts out unsent. */
  lemma InsertRecordatorioFresh(s: Snapshot, descripcion: string, fechaHora: Instant)
    requires s.Valid()
    ensures var s' := InsertRecordatorio(s, descripcion, fechaHora);
      && s'.Valid()
      && s'.recordatorios[..|s.recordatorios|] == s.recordatorios
      && s'.recordatorios[|s.recordatorios|] == Recordatorio(s.nextRecordatorioId, descripcion, fechaHora, false)
      && forall r :: r in s.recordatorios ==> r.id < s.nextRecordatorioId
  {
    var s' := InsertRecordatorio(s, descripcion, fechaHora);
    assert RecordatorioIds(s'.recordatorios) == RecordatorioIds(s.recordatorios) + [s.nextRecordatorioId];
    forall r | r in s.recordatorios ensures r.id < s.nextRecordatorioId {
      var i :| 0 <= i < |s.recordatorios| && s.recordatorios[i] == r;
      assert RecordatorioIds(s.recordatorios)[i] == r.id;
    }
  }

  // ---------------------------------------------------------------------
  // the tables, updated in place

  class Database {
    var tareas: seq<Tarea>
    var nextTareaId: nat
    var inventario: seq<Componente>
    var nextComponenteId: nat
    var recordatorios: seq<Recordatorio>
    var nextRecordatorioId: nat

    function State(): Snapshot
      reads this
    {
      Snapshot(tareas, nextTareaId, inventario, nextComponenteId, recordatorios, nextRecordatorioId)
    }

    ghost predicate Valid()
      reads this
    {
      State().Valid()
    }

    /** The tables as initDB_* leaves them on a new database. */
    constructor ()
      ensures Valid() && State() == Empty
    {
      tareas, nextTareaId := [], 1;
      inventario, nextComponenteId := [], 1;
      recordatorios, nextRecordatorioId := [], 1;
    }

    /** agregarTarea: insert a pending row and return its id. */
    method AgregarTarea(descripcion: string) returns (id: nat)
      requires Valid()
      modifies this
      ensures Valid()
      ensures id == old(nextTareaId)
      ensures State() == InsertTarea(old(State()), descripcion)
    {
      InsertTareaFresh(State(), descripcion);
      id := nextTareaId;
      tareas := tareas + [Tarea(id, descripcion, false)];
      nextTareaId := nextTareaId + 1;
    }

    /** listarTareas: the rows with hecha = 0, in id order. */
    method ListarTareas() returns (rows: seq<Tarea>)
      ensures rows == PendingTareas(tareas)
    {
      rows := [];
      var i := 0;
      while i < |tareas|
        invariant 0 <= i <= |tareas|
        invariant rows == PendingTareas(tareas[..i])
      {
        assert tareas[..i + 1][..i] == tareas[..i];
        if !tareas[i].hecha {
          rows := rows + [tareas[i]];
        }
        i := i + 1;
      }
      assert tareas[..i] == tareas;
    }

    /** marcarTareaHecha: set hecha on the row with id idTarea and report
      how many rows the UPDATE matched. */
    method MarcarTareaHecha(idTarea: int) returns (affectedRows: nat)
      requires Valid()
      modifies this
      ensures Valid()
      ensures affectedRows == RowsWithId(old(tareas), idTarea)
      ensures State() == CompleteTarea(old(State()), idTarea)
    {
      affectedRows := MarkRows(idTarea);
      MarkDoneKeepsIds(old(tareas), idTarea);
    }

    /** The row-by-row work of the UPDATE behind marcarTareaHecha. */
    method MarkRows(idTarea: int) returns (affectedRows: nat)
      modifies this`tareas
      ensures affectedRows == RowsWithId(old(tareas), idTarea)
      ensures tareas == MarkDone(old(tareas), idTarea)
    {
      ghost var before := tareas;
      affectedRows := 0;
      var i := 0;
      while i < |tareas|
        invariant 0 <= i <= |tareas| == |before|
        invariant forall k :: 0 <= k < |before| ==>
          tareas[k] == if k < i && before[k].id == idTarea then before[k].(hecha := true) else before[k]
        invariant affectedRows == RowsWithId(before[..i], idTarea)
      {
        assert before[..i + 1][..i] == before[..i];
        if tareas[i].id == idTarea {
          tareas := tareas[i := tareas[i].(hecha := true)];
          affectedRows := affectedRows + 1;
        }
        i := i + 1;
      }
      assert before[..i] == before;
    }

    /** The SELECT ... WHERE nombre=? both inventory operations start with:
        the position of the first row with that name. */
    method SelectComponente(nombre: string) returns (found: Option<nat>)
      ensures found == FindComponente(inventario, nombre)
    {
      var i := 0;
      while i < |inventario|
        invariant 0 <= i <= |inventario|
        invariant forall k :: 0 <= k < i ==> inventario[k].nombre != nombre
      {
        if inventario[i].nombre == nombre {
          FindAt(inventario, nombre, i);
          return Some(i);
        }
        i := i + 1;
      }
      found := None;
    }

    /** agregarComponente: insert-or-accumulate by name. Returns whether a
        row was inserted and the stock the reply reports. */
    method AgregarComponente(nombre: string, cantidad: int, costo: string) returns (inserted: bool, nuevoStock: int)
      requires Valid()
      modifies this
      ensures Valid()
      ensures inserted == old(Lookup(inventario, nombre)).None?
      ensures nuevoStock == StockOf(inventario, nombre) == old(StockOf(inventario, nombre)) + cantidad
      ensures State() == UpsertComponente(old(State()), nombre, cantidad, costo)
    {
      UpsertKeepsValid(inventario, nombre, cantidad, costo, nextComponenteId);
      UpsertEffect(inventario, nombre, cantidad, costo, nextComponenteId);
      var found := SelectComponente(nombre);
      match found
      case None =>
        inventario := inventario + [Componente(nextComponenteId, nombre, cantidad, costo)];
        nextComponenteId := nextComponenteId + 1;
        inserted, nuevoStock := true, cantidad;
      case Some(i) =>
        nuevoStock := inventario[i].stock + cantidad;
        inventario := inventario[i := inventario[i].(stock := nuevoStock, costoUnitario := costo)];
        inserted := false;
    }

    /** verComponente: the row with that name, if any. */
    method VerComponente(nombre: string) returns (c: Option<Componente>)
      ensures c == Lookup(inventario, nombre)
      ensures c.Some? ==> c.value in inventario && c.value.nombre == nombre
      ensures c.None? <==> forall k :: 0 <= k < |inventario| ==> inventario[k].nombre != nombre
    {
      var found := SelectComponente(nombre);
      c := if found.Some? then Some(inventario[found.value]) else None;
    }

    /** agregarRecordatorio: insert an unsent row and return its id. */
    method AgregarRecordatorio(descripcion: string, fechaHora: Instant) returns (id: nat)
      requires Valid()
      modifies this
      ensures Valid()
      ensures id == old(nextRecordatorioId)
      ensures State() == InsertRecordatorio(old(State()), descripcion, fechaHora)
    {
      InsertRecordatorioFresh(State(), descripcion, fechaHora);
      id := nextRecordatorioId;
      recordatorios := recordatorios + [Recordatorio(id, descripcion, fechaHora, false)];
      nextRecordatorioId := nextRecordatorioId + 1;
    }

    /** obtenerRecordatoriosPendientes: the rows due at now, in id order. */
    method ObtenerRecordatoriosPendientes(now: Instant) returns (rows: seq<Recordatorio>)
      ensures rows == DueRecordatorios(recordatorios, now)
    {
      rows := [];
      var i := 0;
      while i < |recordatorios|
        invariant 0 <= i <= |recordatorios|
        invariant rows == DueRecordatorios(recordatorios[..i], now)
      {
        assert recordatorios[..i + 1][..i] == recordatorios[..i];
        if IsDue(recordatorios[i], now) {
          rows := rows + [recordatorios[i]];
        }
        i := i + 1;
      }
      assert recordatorios[..i] == recordatorios;
    }

    /** marcarRecordatorioEnviado: set enviado on the row with that id. */
    method MarcarRecordatorioEnviado(id: int)
      requires Valid()
      modifies this
      ensures Valid()
      ensures State() == MarkRecordatorioSent(old(State()), id)
    {
      ghost var before := recordatorios;
      var i := 0;
      while i < |recordatorios|
        invariant 0 <= i <= |recordatorios| == |before|
        invariant forall k :: 0 <= k < |before| ==>
          recordatorios[k] == if k < i && before[k].id == id then before[k].(enviado := true) else before[k]
        invariant State() == old(State()).(recordatorios := recordatorios)
      {
        if recordatorios[i].id == id {
          recordatorios := recordatorios[i := recordatorios[i].(enviado := true)];
        }
        i := i + 1;
      }
      assert recordatorios == MarkEnviado(before, id);
      assert RecordatorioIds(recordatorios) == RecordatorioIds(before);
    }
  }
}
