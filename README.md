# WhatsApp command bot: dispatcher, tables and reminder tick

This project models the deterministic core of `index.js`, a WhatsApp bot
that receives messages from the WhatsApp Cloud API on `POST /webhook`:

- **JsText** (`js_text.dfy`): the JavaScript string built-ins the handler
  relies on. These are `trim` (the ECMA-262 WhiteSpace and LineTerminator
  characters), `toLowerCase`, `startsWith`, `slice`, `indexOf`, `replace`
  of the first match, `split`, `parseInt(…, 10)` and the NaN test of
  `parseFloat`.
- **Tables** (`tables.dfy`): the tables `tareas`, `inventario` and
  `recordatorios` with their AUTO_INCREMENT ids. The SQL statements are
  functions on sequences of rows. The class `Database` holds the tables
  and runs the eight operations (`agregarTarea` … `marcarRecordatorioEnviado`)
  in place, with loops proved against those functions.
- **Commands** (`commands.dfy`): the handler's decision.
  - It drops senders other than `MY_WHATSAPP_NUMBER`.
  - It computes `textLower = textUser.toLowerCase().trim()`.
  - It runs the if/else chain of exact and prefix tests.
  - It extracts arguments from the original `textUser`, so a leading
    space shifts the offsets, exactly as the source does.
  - The result is one `Command`.
- **Bot** (`bot.dfy`): the handler's effect.
  - `Respond` gives the new tables and the reply for each `Command`.
  - The method `Webhook` runs the table operations on a `Database`.
  - `Text` and `Message` hold each reply's exact wording.
  - `CronTick` is the body of the one-minute `node-cron` job: it sends
    "Recordatorio: …" for every due, unsent reminder and marks it sent.

Replies are a datatype, `Reply`, with one constructor per
`sendWhatsAppMessage` call of the handler. Two inputs are parameters:

- `parseDate`, which models `new Date(…)` followed by the `getTime()` NaN
  test;
- `showDate`, which models `toISOString().slice(0,19).replace("T"," ")`.

Whether the Graph API accepts a message is also a parameter. It decides
only the `delivered` list, because `sendWhatsAppMessage` swallows every
error.

## Model

| member | source | states |
|---|---|---|
| JsText.LeadingSpace | index.js:288 | the number of white-space characters `trimStart` removes is at most the length, and the character after them is not white space |
| JsText.LeadingSpaceIsSpace | index.js:288 | every character `trimStart` removes is white space (induction) |
| JsText.TrailingEndIsSpace | index.js:288 | every character `trimEnd` removes is white space (induction) |
| JsText.TrimShape | index.js:309 | `trim` gives the empty string exactly when the input is all white space; otherwise its first and last characters are not white space |
| JsText.TrimIdentity | index.js:309 | `trim` leaves a string unchanged when it neither begins nor ends with white space |
| JsText.Trim | index.js:288 | `trim` never lengthens a string, and a non-empty result neither begins nor ends with white space |
| JsText.TrimIsPiece | index.js:309 | `trim` gives the piece of the input that starts right after its leading white space |
| JsText.ToLower | index.js:288 | `toLowerCase` keeps the length |
| JsText.LowerIdempotent | index.js:288 | lower-casing a lower-cased text changes nothing |
| JsText.LowerKeepsSpace | index.js:288 | lower-casing neither creates nor removes white space |
| JsText.TrimLower | index.js:288 | `toLowerCase().trim()` equals `trim().toLowerCase()`: the two commute |
| JsText.StartsWith | index.js:308 | `startsWith(p)` holds exactly when p is no longer than the text and the text is p followed by the rest |
| JsText.StartsWithAppend | index.js:308 | a text starts with every one of its prefixes |
| JsText.Slice | index.js:309 | `slice(n)` has the length of s minus n, or 0 when n is past the end, and s is its first n characters followed by it |
| JsText.IndexOf | index.js:448 | `indexOf` is -1 exactly when the character is absent; otherwise it is the first position holding it |
| JsText.IndexOfAt | index.js:448 | the first position holding the character is what `indexOf` returns |
| JsText.ReplaceFirst | index.js:462 | `replace` with a one-character pattern keeps the length and changes nothing when the pattern is absent |
| JsText.ReplaceFirstAt | index.js:462 | `replace` changes exactly the first occurrence |
| JsText.Split | index.js:368 | `split` gives at least one piece, no piece holds the separator, and joining the pieces gives the input back |
| JsText.SplitCount | index.js:368-369 | `split(" ")` gives one more piece than there are spaces |
| JsText.SplitJoin | index.js:368 | splitting the join of separator-free pieces gives the pieces back |
| JsText.ParseInt | index.js:343-344 | `parseInt` is NaN exactly when, after leading white space and one sign, no digit follows |
| JsText.ParseIntOfNat | index.js:343 | `parseInt` of a number's decimal text followed by a non-digit is that number |
| JsText.ParseIntOfNegated | index.js:343 | `parseInt` of "-" and a number's decimal text is the negated number |
| JsText.ParsesAsFloat | index.js:376-377 | a text `parseFloat` accepts but `parseInt` rejects starts, after white space and a sign, with "Infinity" or a point |
| JsText.IntegerIsFloat | index.js:375-377 | every text `parseInt` accepts, `parseFloat` accepts too |
| JsText.NatToString | index.js:316 | an id prints as a non-empty run of digits without a leading zero |
| JsText.DigitsOfNat | index.js:316 | the printed digits of a number denote that number |
| JsText.IntToString | index.js:351 | an integer prints as a non-empty text that begins with '-' exactly when the integer is negative |
| JsText.IntToStringRoundTrip | index.js:343-351 | `parseInt` reads back every integer a template literal prints |
| Tables.InsertTarea | index.js:107-113 | the insert adds exactly one pending row `(nextId, descripcion)` after the old pending rows, and touches no other table |
| Tables.PendingTareas | index.js:114-119 | a row is in the result exactly when it is in the table with `hecha = 0` |
| Tables.NoRowWithId | index.js:120-126 | the UPDATE matches no row exactly when no row has the id |
| Tables.AtMostOneRow | index.js:120-126 | with AUTO_INCREMENT ids, the UPDATE by id matches at most one row |
| Tables.MarkDonePending | index.js:120-126 | marking an id done removes exactly the row with that id from the pending list |
| Tables.MarkDoneMissing | index.js:120-126 | with an id that no row has, nothing changes |
| Tables.MarkDone | index.js:120-126 | the UPDATE keeps the rows, their ids and descriptions, and sets `hecha` on exactly the rows with the id |
| Tables.MarkDoneKeepsIds | index.js:120-126 | the UPDATE changes no id |
| Tables.FindComponente | index.js:130-134 | `SELECT … WHERE nombre=?` finds the first row with the name, and finds nothing exactly when no row has it |
| Tables.Upsert | index.js:129-150 | the table grows by one row exactly when no row has the name |
| Tables.UpsertEffect | index.js:129-150 | an unknown name gains a row with stock = cantidad; a known name gets stock old + cantidad and the new cost, with no row added; all other names are unchanged |
| Tables.UpsertKeepsValid | index.js:129-150 | the insert-or-accumulate keeps ids increasing and names unique |
| Tables.DueRecordatorios | index.js:172-179 | a reminder is selected exactly when it is in the table with `enviado = 0` and `fecha_hora <= now` |
| Tables.InsertRecordatorio | index.js:165-171 | at any time, the due selection gains the new reminder at its end exactly when it is due, and the other tables are untouched |
| Tables.DueOnce | index.js:172-179 | with increasing ids, each due reminder is selected exactly once |
| Tables.MarkEnviado | index.js:180-185 | the UPDATE keeps the rows, their ids, descriptions and times, and sets `enviado` on exactly the rows with the id |
| Tables.AfterTick | index.js:188-201 | after a tick a row is sent exactly when it was sent or due; ids, descriptions and times are unchanged |
| Tables.DueAfterTick | index.js:188-201 | after a tick at now, a row is selected at a later time exactly when it was in the table, is due at that time and has `now < fecha_hora` |
| Tables.NothingDueAfterTick | index.js:188-201 | after a tick at now, nothing is due at now: a sent reminder is never selected again |
| Tables.TicksCompose | index.js:188-201 | a tick at now1 followed by one at now2 >= now1 is the same as a tick at now2 |
| Tables.MarkEachAt | index.js:191-197 | marking a list of ids one at a time sets `enviado` on exactly the rows with those ids |
| Tables.MarkDueIsTick | index.js:189-197 | marking the selected rows one by one is the tick's before/after relation |
| Tables.InsertTareaFresh | index.js:107-113 | the new tarea's id is greater than every id in the table, and the table stays valid |
| Tables.InsertRecordatorioFresh | index.js:165-171 | the new reminder's id is greater than every id in the table, and the table stays valid |
| Tables.Database.constructor | index.js:41-71 | new tables are empty, and every AUTO_INCREMENT counter starts at 1 |
| Tables.Database.AgregarTarea | index.js:107-113 | appends `(id, descripcion, hecha = 0)`, returns the id and advances the counter |
| Tables.Database.ListarTareas | index.js:114-119 | the loop returns exactly the pending rows in table order |
| Tables.Database.MarcarTareaHecha | index.js:120-126 | sets `hecha` on the rows with the id, changes nothing else and returns the number of matched rows |
| Tables.Database.SelectComponente | index.js:130-133 | the loop finds the first row with the name |
| Tables.Database.AgregarComponente | index.js:129-150 | reports whether a row was inserted and the new stock, which is old + cantidad; the tables become the upsert |
| Tables.Database.VerComponente | index.js:151-162 | returns the row with the name, or nothing exactly when no row has it |
| Tables.Database.AgregarRecordatorio | index.js:165-171 | appends an unsent reminder, returns its id and advances the counter |
| Tables.Database.ObtenerRecordatoriosPendientes | index.js:172-179 | the loop returns exactly the unsent rows with `fecha_hora <= now`, in table order |
| Tables.Database.MarcarRecordatorioEnviado | index.js:180-185 | sets `enviado` on the row with the id and changes nothing else |
| Commands.Lowered | index.js:288 | `textLower` is empty or has no white space at either end |
| Commands.Classify | index.js:297-486 | the chain takes a branch only when that branch's test holds, and the default branch only when no test holds |
| Commands.SelectsLeading | index.js:297-445 | a text that passes a test of the chain has at least two characters and begins with 'h', or with '/' and the keyword's second letter |
| Commands.Exclusive | index.js:297-486 | no text passes two different tests of the chain |
| Commands.ClassifyOrderFree | index.js:297-486 | the chain picks a branch exactly when that branch's test holds; the default branch is taken exactly when no test holds |
| Commands.Argument | index.js:309 | `textUser.slice(n).trim()` is empty or neither begins nor ends with white space |
| Commands.ParseTarea | index.js:308-322 | /tarea gives the usage reply, or a trimmed non-empty description |
| Commands.ParseDone | index.js:341-346 | /done gives the usage reply or an integer id |
| Commands.ParseComponente | index.js:366-382 | /componente gives the usage reply, "inválidos" or a name, stock and cost |
| Commands.ParseVercomp | index.js:392-398 | /vercomp gives the usage reply or a trimmed non-empty name |
| Commands.ParseInfo | index.js:410-416 | /info gives the usage reply or a trimmed non-empty topic |
| Commands.ParseQuiz | index.js:423-427 | /quiz gives the usage reply or a trimmed non-empty topic |
| Commands.ParseRecordatorio | index.js:445-468 | /recordatorio gives the usage reply, "Fecha/hora inválida" or a reminder whose description is non-empty and ends in a non-space; the usage reply comes exactly when the trimmed remainder has no space |
| Commands.Route | index.js:297-491 | no branch ignores the message or replies "Falta descripción", and every argument is trimmed |
| Commands.Dispatch | index.js:285-294 | a message is ignored exactly when its sender is not `MY_WHATSAPP_NUMBER`; no message reaches "Falta descripción" (index.js:456-459); every argument that reaches a table is trimmed |
| Commands.CommandTextSelects | index.js:288-445 | a keyword followed by text that ends in a non-space selects that keyword's branch |
| Commands.TareaRoundTrip | index.js:308-311 | "/tarea " + d from the owner stores exactly d when d is trimmed and non-empty |
| Commands.DoneRoundTrip | index.js:341-344 | "/done " + the digits of n, then any non-digit tail, marks id n |
| Commands.DoneNotANumber | index.js:343-346 | /done with an argument `parseInt` rejects gives the usage reply |
| Commands.ComponenteRoundTrip | index.js:366-377 | "/componente name stock cost" with space-free parts stores exactly that name, stock and cost |
| Commands.ComponenteTooFewPieces | index.js:368-373 | a /componente message with fewer than three spaces gives the usage reply |
| Commands.ComponenteNotANumber | index.js:374-380 | a /componente message of at least four pieces whose stock `parseInt` rejects or whose cost `parseFloat` rejects gives "Valores de stock/costo inválidos." |
| Commands.RecordatorioRoundTrip | index.js:445-468 | "/recordatorio token desc" with a space-free token passes token + ":00" to the date parser and stores desc |
| Commands.UsageFormatSplitsAtDate | index.js:445-462 | the documented "YYYY-MM-DD HH:MM texto" form is split after the date, so the time becomes part of the description |
| Commands.ArgumentNotEmpty | index.js:288-309 | when `textLower` is longer than n, `textUser.slice(n).trim()` is not empty |
| Commands.EmptyArgumentUnreachable | index.js:308-311 | the usage replies of /tarea, /vercomp (index.js:392-397), /info (index.js:410-414) and /quiz (index.js:423-426) are never sent: a command word followed only by white space never reaches its branch |
| Commands.LeadingSpaceShiftsArgument | index.js:288-309 | with two leading spaces, "/tarea " + arg is matched on textLower but sliced from textUser, so it stores "a " + arg |
| Bot.TareaLinesAppend | index.js:330-334 | the listing of two runs of rows is the two listings concatenated |
| Bot.ListingShowsRow | index.js:330-334 | each pending row's line "#id - descripcion" appears in the listing, between the lines of the rows before and after it |
| Bot.Text | index.js:297-491 | the handler writes a text for every reply except the language model's answers to /info and /quiz |
| Bot.FormatTareas | index.js:330-334 | the forEach loop builds the header followed by one line per row |
| Bot.Respond | index.js:297-491 | only an ignored message goes unanswered, "Falta descripción." answers only its own outcome, and only /tarea, /done, /componente and /recordatorio change a table |
| Bot.Render | index.js:297-491 | the text sent is the reply's text |
| Bot.Execute | index.js:297-491 | the handler's branch for a command changes the tables and replies as `Respond` says |
| Bot.ExecuteTareas | index.js:308-363 | the /tarea, /listar and /done branches change the tables and reply as `Respond` says |
| Bot.ExecuteInventario | index.js:366-405 | the /componente and /vercomp branches change the tables and reply as `Respond` says |
| Bot.Webhook | index.js:285-491 | one message leaves the tables and reply that `Respond` gives for the dispatched command, and sends that reply's text |
| Bot.ForeignSenderIgnored | index.js:291-294 | a foreign sender gets no reply and no table changes |
| Bot.OwnerAlwaysAnswered | index.js:297-491 | every message from the owner gets a reply, and that reply is never "Falta descripción." |
| Bot.RespondKeepsValid | index.js:107-185 | every command keeps ids increasing and below their counters, and names unique |
| Bot.TareaAdded | index.js:107-113 | /tarea appends one pending row with an id above every existing id, keeps all other rows and tables, and reports that id |
| Bot.ListarReply | index.js:324-339 | /listar changes nothing and replies "No hay tareas pendientes." exactly when every tarea is done; otherwise it lists exactly the pending rows |
| Bot.DoneMissing | index.js:341-363 | /done with an id that no row has changes nothing and replies "No se encontró" |
| Bot.DoneFound | index.js:341-363 | /done with an existing id replies "marcada como hecha" and removes exactly that row from the pending list |
| Bot.ComponenteStored | index.js:129-150 | /componente inserts a row for a new name or accumulates stock on an existing one, leaves other names unchanged, and reports the resulting stock |
| Bot.RecordatorioStored | index.js:165-171 | /recordatorio appends one unsent reminder with an id above every existing id and reports that id |
| Bot.TareaMessage | index.js:308-322 | the owner's "/tarea d" inserts exactly d and reports the new id |
| Bot.CronTick | index.js:188-201 | the tick marks every due reminder sent and leaves the others unchanged, whether or not delivery succeeds; it sends one notice per due reminder, in table order |
| Bot.TickSendsOnce | index.js:188-201 | each due reminder appears exactly once in the selection (as a multiset) and gets its own notice in its place; a second tick at the same time sends nothing |

## Left out

- HTTP plumbing is not modelled: Express, the GET `/webhook` token handshake, the root route and the status-200 responses. A payload with no message is not modelled, since the handler sends nothing for it. A message without a text body (index.js:287) is `body == None`.
- Database and network failures are not modelled. The handler's "Error al …" replies and the cron job's `catch` are therefore absent, and every query is taken to succeed.
- The OpenAI calls behind `/info` and `/quiz` are foreign. So are the JSON parsing of their output and the quiz formatting loop. Their replies appear only as `RespuestaInfo(tema)` and `RespuestaQuiz(tema)`, with no text.
- JavaScript `Date` parsing, `toISOString` and time zones are parameters (`parseDate`, `showDate`). The stored `fecha_hora` is the parsed instant, not the formatted string.
- `parseFloat` is modelled only as its NaN test. The cost is kept and printed as the text the user typed. The source stores it as a FLOAT and prints the number.
- Tables.FindComponente: names are compared exactly. MySQL's default collation compares them case-insensitively, and that comparison is not modelled.
- Integer widths are not modelled: the INT column overflow, `parseInt` beyond 2^53 and the VARCHAR length limits.
- `toLowerCase` maps ASCII letters only. Other case mappings are not modelled, and no argument check depends on them.
- `node-cron` scheduling and any overlap between ticks, or between a tick and a message, are not modelled. One tick is one sequential method.
- Console logging is not modelled.
- `SELECT * FROM tareas WHERE hecha = 0` (index.js:114-119) and the reminders' SELECT (index.js:173-177) have no ORDER BY. The model returns rows in insertion order, which is the order InnoDB gives for these primary-key scans. CronTick's "in table order" rests on the same choice.
- Tables.Database.MarcarTareaHecha: affectedRows counts matched rows, because mysql2 connects with FOUND_ROWS. A repeated `/done` on a finished tarea therefore still replies "marcada como hecha".
