/** Command recognition in the POST /webhook handler: which branch of its
    if/else chain a message takes and which arguments that branch extracts.
    This part is pure; what each command does to the tables is in module Bot. */
module Commands {
  import opened JsText
  import opened Tables

  /** MY_WHATSAPP_NUMBER: the only sender the bot answers. */
  const MyWhatsAppNumber: string := "529983214356"

  /** The branches of the handler's if/else chain. */
  datatype Branch =
    | OnHola | OnTarea | OnListar | OnDone | OnComponente
    | OnVercomp | OnInfo | OnQuiz | OnRecordatorio | OnOther

  /** The literal a command branch compares textLower with. */
  function Keyword(b: Branch): string {
    match b
    case OnHola => "hola"
    case OnTarea => "/tarea "
    case OnListar => "/listar"
    case OnDone => "/done "
    case OnComponente => "/componente "
    case OnVercomp => "/vercomp "
    case OnInfo => "/info "
    case OnQuiz => "/quiz "
    case OnRecordatorio => "/recordatorio "
    case OnOther => ""
  }

  /** The test guarding branch b, taken on its own: an exact match for the
      greeting and /listar, a prefix test for every other command. */
  predicate Selects(b: Branch, t: string) {
    match b
    case OnHola => t == "hola" || t == "hello"
    case OnListar => t == "/listar"
    case OnOther => false
    case _ => StartsWith(t, Keyword(b))
  }

  /** The if/else chain over textLower, tried in the handler's order: the
      branch it takes passes its own test, and the default branch is taken
      only when no test holds. */
  function Classify(t: string): (b: Branch)
    ensures b != OnOther ==> Selects(b, t)
    ensures b == OnOther ==> forall x :: !Selects(x, t)
  {
    if t == "hola" || t == "hello" then OnHola
    else if StartsWith(t, "/tarea ") then OnTarea
    else if t == "/listar" then OnListar
    else if StartsWith(t, "/done ") then OnDone
    else if StartsWith(t, "/componente ") then OnComponente
    else if StartsWith(t, "/vercomp ") then OnVercomp
    else if StartsWith(t, "/info ") then OnInfo
    else if StartsWith(t, "/quiz ") then OnQuiz
    else if StartsWith(t, "/recordatorio ") then OnRecordatorio
    else OnOther
  }

  /** Every command test pins down the first two characters of the text,
      differently for each branch. */
  lemma SelectsLeading(b: Branch, t: string)
    requires Selects(b, t)
    ensures |t| >= 2
    ensures b == OnHola ==> t[0] == 'h'
    ensures b != OnHola ==> t[0] == '/' && t[1] == Keyword(b)[1]
  {
    if b != OnHola && b != OnListar {
      assert t[..|Keyword(b)|] == Keyword(b);
      assert t[0] == Keyword(b)[0] && t[1] == Keyword(b)[1];
    }
  }

  /** No text passes two different tests. */
  lemma Exclusive(b1: Branch, b2: Branch, t: string)
    requires Selects(b1, t) && Selects(b2, t)
    ensures b1 == b2
  {
    SelectsLeading(b1, t);
    SelectsLeading(b2, t);
  }

  /** Because the tests exclude one another, the order in which the chain
      tries them does not matter: a text takes a command's branch exactly
      when it passes that command's own test, and falls through to "No
      reconozco el comando" exactly when it passes none. */
  lemma ClassifyOrderFree(t: string)
    ensures forall b :: b != OnOther ==> (Classify(t) == b <==> Selects(b, t))
    ensures Classify(t) == OnOther <==> forall b :: !Selects(b, t)
  {
    var c := Classify(t);
    assert c != OnOther ==> Selects(c, t);
    forall b | Selects(b, t) ensures c == b {
      if c != OnOther {
        Exclusive(b, c, t);
      }
    }
  }

  /** The outcome of one incoming message. */
  datatype Command =
    | Ignored                                // another sender: no reply at all
    | Help                                   // "hola" / "hello"
    | UsoTarea
    | AgregarTarea(descripcion: string)
    | Listar
    | UsoDone
    | Done(id: int)
    | UsoComponente
    | ComponenteInvalido                     // stock or cost is NaN
    | AgregarComponente(nombre: string, cantidad: int, costo: string)
    | UsoVercomp
    | VerComponente(nombre: string)
    | UsoInfo
    | Info(tema: string)                     // answered by the external language model
    | UsoQuiz
    | Quiz(tema: string)                     // answered by the external language model
    | UsoRecordatorio
    | FaltaDescripcion
    | FechaInvalida
    | AgregarRecordatorio(descripcion: string, fechaHora: Instant)
    | NoReconocido

  /** A non-empty text with no white space at either end. */
  predicate Trimmed(a: string) {
    a != [] && !IsSpace(a[0]) && !IsSpace(a[|a| - 1])
  }

  /** textUser.slice(n).trim(): the argument after a command word of
      length n, cut from the text as it was received. */
  function Argument(textUser: string, n: nat): (a: string)
    ensures a == [] || Trimmed(a)
  {
    TrimShape(Slice(textUser, n));
    Trim(Slice(textUser, n))
  }

  /** /tarea: the description must not be empty. */
  function ParseTarea(textUser: string): (c: Command)
    ensures c.UsoTarea? || (c.AgregarTarea? && Trimmed(c.descripcion))
  {
    var desc := Argument(textUser, 7);
    if desc == [] then UsoTarea else AgregarTarea(desc)
  }

  /** /done: parseInt of the argument; NaN gives the usage reply. */
  function ParseDone(textUser: string): (c: Command)
    ensures c.UsoDone? || c.Done?
  {
    match ParseInt(Argument(textUser, 6))
    case None => UsoDone
    case Some(id) => Done(id)
  }

  /** /componente: the whole text split at single spaces; the name is the
      second piece, the stock (parseInt) the third, the cost (parseFloat)
      the fourth; extra pieces are ignored. */
  function ParseComponente(textUser: string): (c: Command)
    ensures c.UsoComponente? || c.ComponenteInvalido? || c.AgregarComponente?
  {
    var args := Split(textUser, ' ');
    if |args| < 4 then UsoComponente
    else match ParseInt(args[2])
      case None => ComponenteInvalido
      case Some(stock) =>
        if ParsesAsFloat(args[3]) then AgregarComponente(args[1], stock, args[3])
        else ComponenteInvalido
  }

  /** /vercomp: the name must not be empty. */
  function ParseVercomp(textUser: string): (c: Command)
    ensures c.UsoVercomp? || (c.VerComponente? && Trimmed(c.nombre))
  {
    var nombre := Argument(textUser, 9);
    if nombre == [] then UsoVercomp else VerComponente(nombre)
  }

  /** /info: the topic must not be empty. */
  function ParseInfo(textUser: string): (c: Command)
    ensures c.UsoInfo? || (c.Info? && Trimmed(c.tema))
  {
    var tema := Argument(textUser, 6);
    if tema == [] then UsoInfo else Info(tema)
  }

  /** /quiz: the topic must not be empty. */
  function ParseQuiz(textUser: string): (c: Command)
    ensures c.UsoQuiz? || (c.Quiz? && Trimmed(c.tema))
  {
    var tema := Argument(textUser, 6);
    if tema == [] then UsoQuiz else Quiz(tema)
  }

  /** The text given to new Date(): the first space turned into a "T", then
      ":00" appended. */
  function DateText(fechaHoraStr: string): string {
    ReplaceFirst(fechaHoraStr, ' ', 'T') + ":00"
  }

  /** In a text that does not end in white space, a space is followed by
      at least one character, and the text after it keeps the last one. */
  lemma SpaceBeforeEnd(resto: string, k: int)
    requires 0 <= k < |resto| && resto[k] == ' '
    requires !IsSpace(resto[|resto| - 1])
    ensures k < |resto| - 1
    ensures var d := resto[k + 1..]; d != [] && d[|d| - 1] == resto[|resto| - 1]
  {
    assert IsSpace(resto[k]);
  }

  /** /recordatorio: the trimmed remainder split at its first space into
      the date token and the description. parseDate stands for new Date(),
      None for an invalid date. The "Falta descripción" outcome can never
      arise: the remainder is trimmed, so it cannot end in the space it is
      split at. */
  function ParseRecordatorio(textUser: string, parseDate: string -> Option<Instant>): (c: Command)
    ensures c.UsoRecordatorio? || c.FechaInvalida? || c.AgregarRecordatorio?
    ensures c.AgregarRecordatorio? ==> c.descripcion != [] && !IsSpace(c.descripcion[|c.descripcion| - 1])
    ensures c.UsoRecordatorio? <==> ' ' !in Argument(textUser, 14)
  {
    var resto := Argument(textUser, 14);
    var firstSpace := IndexOf(resto, ' ');
    if firstSpace < 0 then UsoRecordatorio
    else
      SpaceBeforeEnd(resto, firstSpace);
      var fechaHoraStr := resto[..firstSpace];
      var desc := resto[firstSpace + 1..];
      if desc == [] then FaltaDescripcion
      else
        match parseDate(DateText(fechaHoraStr))
        case None => FechaInvalida
        case Some(when) => AgregarRecordatorio(desc, when)
  }

  /** What every argument handed on to a table or to the language model
      satisfies: it is not empty and has no white space at either end (a
      reminder's description at its end). */
  predicate ArgumentsClean(c: Command) {
    && (c.AgregarTarea? ==> Trimmed(c.descripcion))
    && (c.VerComponente? ==> Trimmed(c.nombre))
    && (c.Info? ==> Trimmed(c.tema))
    && (c.Quiz? ==> Trimmed(c.tema))
    && (c.AgregarRecordatorio? ==> c.descripcion != [] && !IsSpace(c.descripcion[|c.descripcion| - 1]))
  }

  /** The branch b of the chain, run on the text as received. */
  function Route(b: Branch, textUser: string, parseDate: string -> Option<Instant>): (c: Command)
    ensures !c.Ignored? && !c.FaltaDescripcion?
    ensures ArgumentsClean(c)
  {
    match b
    case OnHola => Help
    case OnTarea => ParseTarea(textUser)
    case OnListar => Listar
    case OnDone => ParseDone(textUser)
    case OnComponente => ParseComponente(textUser)
    case OnVercomp => ParseVercomp(textUser)
    case OnInfo => ParseInfo(textUser)
    case OnQuiz => ParseQuiz(textUser)
    case OnRecordatorio => ParseRecordatorio(textUser, parseDate)
    case OnOther => NoReconocido
  }

  /** textLower: the text lower-cased and trimmed, used only for matching;
      it is empty or has no white space at either end. */
  function Lowered(textUser: string): (r: string)
    ensures r == [] || Trimmed(r)
  {
    Trim(ToLower(textUser))
  }

  /** The POST /webhook handler from a message to its outcome. body is the
      text of the message, None when it has none. Exactly the messages from
      other numbers are ignored; "Falta descripción" is never the outcome;
      every argument handed on to a table or the language model is clean. */
  function Dispatch(from: string, body: Option<string>, parseDate: string -> Option<Instant>): (c: Command)
    ensures c.Ignored? <==> from != MyWhatsAppNumber
    ensures !c.FaltaDescripcion?
    ensures ArgumentsClean(c)
  {
    var textUser := if body.Some? then body.value else "";
    if from != MyWhatsAppNumber then Ignored
    else Route(Classify(Lowered(textUser)), textUser, parseDate)
  }

  // ---------------------------------------------------------------------
  // properties of the dispatcher

  /** Lower-casing distributes over concatenation. */
  lemma LowerAppend(a: string, b: string)
    ensures ToLower(a + b) == ToLower(a) + ToLower(b)
  {
  }

  lemma KeywordIsLowerCase(b: Branch)
    ensures ToLower(Keyword(b)) == Keyword(b)
  {
    var kw := Keyword(b);
    assert forall i :: 0 <= i < |kw| ==> LowerChar(kw[i]) == kw[i];
  }

  /** Every command word but the greeting begins with a slash. */
  lemma KeywordShape(b: Branch)
    requires b != OnHola && b != OnOther
    ensures |Keyword(b)| >= 2 && Keyword(b)[0] == '/'
  {
  }

  /** A lower-case word beginning with a slash, followed by an argument
      that does not end in white space, is left as it is by trim() and
      lower-cased only in the argument. */
  lemma LoweredCommand(kw: string, arg: string)
    requires kw != [] && kw[0] == '/' && ToLower(kw) == kw
    requires arg != [] && !IsSpace(arg[|arg| - 1])
    ensures Lowered(kw + arg) == kw + ToLower(arg)
  {
    LowerAppend(kw, arg);
    var l := kw + ToLower(arg);
    assert l[0] == '/';
    assert l[|l| - 1] == LowerChar(arg[|arg| - 1]);
    LowerKeepsSpace(arg[|arg| - 1]);
    TrimIdentity(l);
  }

  /** A text that passes a command's test takes that command's branch. */
  lemma ClassifiesAs(b: Branch, l: string)
    requires b != OnOther && Selects(b, l)
    ensures Classify(l) == b
  {
    ClassifyOrderFree(l);
  }

  /** A command word followed by an argument that does not end in white
      space passes that command's test, whatever the case of the
      argument. */
  lemma CommandTextSelects(b: Branch, arg: string)
    requires b != OnHola && b != OnListar && b != OnOther
    requires arg != [] && !IsSpace(arg[|arg| - 1])
    ensures Classify(Lowered(Keyword(b) + arg)) == b
  {
    var kw := Keyword(b);
    KeywordShape(b);
    KeywordIsLowerCase(b);
    LoweredCommand(kw, arg);
    var l := kw + ToLower(arg);
    assert l[..|kw|] == kw;
    ClassifiesAs(b, l);
  }

  /** A message from the owner that is a command word followed by an
      argument not ending in white space is routed to that command's
      branch, with the text as received. */
  lemma DispatchCommand(b: Branch, arg: string, parseDate: string -> Option<Instant>)
    requires b != OnHola && b != OnListar && b != OnOther
    requires arg != [] && !IsSpace(arg[|arg| - 1])
    ensures Dispatch(MyWhatsAppNumber, Some(Keyword(b) + arg), parseDate) == Route(b, Keyword(b) + arg, parseDate)
  {
    CommandTextSelects(b, arg);
  }

  /** Slicing off a prefix of length n and trimming gives back an argument
      that has no white space at either end. */
  lemma ArgumentAfter(prefix: string, arg: string)
    requires arg == [] || Trimmed(arg)
    ensures Argument(prefix + arg, |prefix|) == arg
  {
    assert Slice(prefix + arg, |prefix|) == arg;
    TrimIdentity(arg);
  }

  /** "/tarea " followed by a trimmed description adds that description. */
  lemma TareaRoundTrip(desc: string, parseDate: string -> Option<Instant>)
    requires Trimmed(desc)
    ensures Dispatch(MyWhatsAppNumber, Some("/tarea " + desc), parseDate) == AgregarTarea(desc)
  {
    DispatchCommand(OnTarea, desc, parseDate);
    ArgumentAfter("/tarea ", desc);
  }

  /** The decimal form of a number followed by a text that does not begin
      with a digit is a /done argument that trim() leaves alone. */
  lemma NumberArgument(n: nat, rest: string)
    requires rest == [] || (!IsDigit(rest[0]) && !IsSpace(rest[|rest| - 1]))
    ensures var arg := NatToString(n) + rest;
      Trimmed(arg)
  {
    var d := NatToString(n);
    var arg := d + rest;
    assert arg[0] == d[0] && IsDigit(d[0]);
    assert IsDigit(d[|d| - 1]);
    assert arg[|arg| - 1] == if rest == [] then d[|d| - 1] else rest[|rest| - 1];
  }

  /** "/done " followed by a number marks that id, and parseInt stops at
      the first character that is not a digit. */
  lemma DoneRoundTrip(n: nat, rest: string, parseDate: string -> Option<Instant>)
    requires rest == [] || (!IsDigit(rest[0]) && !IsSpace(rest[|rest| - 1]))
    ensures Dispatch(MyWhatsAppNumber, Some("/done " + NatToString(n) + rest), parseDate) == Done(n)
  {
    var arg := NatToString(n) + rest;
    assert "/done " + NatToString(n) + rest == Keyword(OnDone) + arg;
    NumberArgument(n, rest);
    DispatchCommand(OnDone, arg, parseDate);
    ArgumentAfter("/done ", arg);
    ParseIntOfNat(n, rest);
  }

  /** "/done " followed by an argument parseInt cannot read gives the usage
      reply. */
  lemma DoneNotANumber(arg: string, parseDate: string -> Option<Instant>)
    requires Trimmed(arg)
    requires ParseInt(arg).None?
    ensures Dispatch(MyWhatsAppNumber, Some("/done " + arg), parseDate).UsoDone?
  {
    DispatchCommand(OnDone, arg, parseDate);
    ArgumentAfter("/done ", arg);
  }

  /** The four pieces of a well-formed /componente message, joined with
      single spaces, give back the message. */
  lemma ComponenteJoin(nombre: string, digits: string, costo: string)
    ensures Join(["/componente", nombre, digits, costo], ' ')
         == "/componente " + nombre + " " + digits + " " + costo
  {
    var parts := ["/componente", nombre, digits, costo];
    assert parts[1..] == [nombre, digits, costo];
    assert parts[1..][1..] == [digits, costo];
    assert parts[1..][1..][1..] == [costo];
    assert Join([costo], ' ') == costo;
    assert Join([digits, costo], ' ') == digits + " " + costo;
    assert Join([nombre, digits, costo], ' ') == nombre + " " + digits + " " + costo;
  }

  /** Once the text splits into at least four pieces with a readable stock
      and cost, /componente adds the second piece with that stock and
      cost. */
  lemma ComponenteOfPieces(text: string, nombre: string, stock: int, costo: string)
    requires |Split(text, ' ')| >= 4
    requires Split(text, ' ')[1] == nombre && ParseInt(Split(text, ' ')[2]) == Some(stock)
    requires Split(text, ' ')[3] == costo && ParsesAsFloat(costo)
    ensures ParseComponente(text) == AgregarComponente(nombre, stock, costo)
  {
  }

  /** Splitting a well-formed /componente message at single spaces gives
      back its four pieces. */
  lemma ComponenteSplit(nombre: string, digits: string, costo: string)
    requires ' ' !in nombre && ' ' !in digits && ' ' !in costo
    ensures Split("/componente " + nombre + " " + digits + " " + costo, ' ') == ["/componente", nombre, digits, costo]
  {
    var parts := ["/componente", nombre, digits, costo];
    ComponenteJoin(nombre, digits, costo);
    assert forall i :: 0 <= i < |parts| ==> ' ' !in parts[i];
    SplitJoin(parts, ' ');
  }

  /** The /componente branch reads a single-spaced message back into its
      name, stock and cost. */
  lemma ComponenteParse(nombre: string, stock: nat, costo: string)
    requires ' ' !in nombre && ' ' !in costo && ParsesAsFloat(costo)
    ensures ParseComponente("/componente " + nombre + " " + NatToString(stock) + " " + costo)
         == AgregarComponente(nombre, stock, costo)
  {
    var digits := NatToString(stock);
    assert ' ' !in digits by {
      assert forall i :: 0 <= i < |digits| ==> IsDigit(digits[i]);
    }
    ComponenteSplit(nombre, digits, costo);
    ParseIntOfNat(stock, []);
    assert digits + [] == digits;
    ComponenteOfPieces("/componente " + nombre + " " + digits + " " + costo, nombre, stock, costo);
  }

  /** A single-spaced /componente message is its command word followed by
      an argument that ends where the cost ends. */
  lemma ComponenteText(nombre: string, digits: string, costo: string)
    requires costo != [] && !IsSpace(costo[|costo| - 1])
    ensures var arg := nombre + " " + digits + " " + costo;
      && "/componente " + nombre + " " + digits + " " + costo == Keyword(OnComponente) + arg
      && arg != [] && !IsSpace(arg[|arg| - 1])
  {
    assert Keyword(OnComponente) == "/componente ";
    var arg := nombre + " " + digits + " " + costo;
    assert arg[|arg| - 1] == costo[|costo| - 1];
  }

  /** A /componente command word followed by an argument that does not end
      in white space is read by the /componente branch. */
  lemma DispatchComponente(text: string, arg: string, parseDate: string -> Option<Instant>)
    requires text == Keyword(OnComponente) + arg
    requires arg != [] && !IsSpace(arg[|arg| - 1])
    ensures Dispatch(MyWhatsAppNumber, Some(text), parseDate) == ParseComponente(text)
  {
    DispatchCommand(OnComponente, arg, parseDate);
  }

  /** "/componente <nombre> <stock> <costo>" with single spaces adds that
      component, the stock read by parseInt and the cost kept as typed. */
  lemma ComponenteRoundTrip(nombre: string, stock: nat, costo: string, parseDate: string -> Option<Instant>)
    requires ' ' !in nombre && ' ' !in costo
    requires costo != [] && !IsSpace(costo[|costo| - 1]) && ParsesAsFloat(costo)
    ensures Dispatch(MyWhatsAppNumber, Some("/componente " + nombre + " " + NatToString(stock) + " " + costo), parseDate)
         == AgregarComponente(nombre, stock, costo)
  {
    var digits := NatToString(stock);
    ComponenteText(nombre, digits, costo);
    DispatchComponente("/componente " + nombre + " " + digits + " " + costo, nombre + " " + digits + " " + costo, parseDate);
    ComponenteParse(nombre, stock, costo);
  }

  /** Fewer than three spaces in the text means fewer than four pieces: the
      usage reply. */
  lemma ComponenteTooFewPieces(text: string, parseDate: string -> Option<Instant>)
    requires Classify(Lowered(text)) == OnComponente
    requires Occurrences(text, ' ') < 3
    ensures Dispatch(MyWhatsAppNumber, Some(text), parseDate).UsoComponente?
  {
    SplitCount(text, ' ');
  }

  /** The remainder after "/recordatorio " is cut at its first space: the
      part before it, with ":00" appended, goes to the date parser, the
      rest is the description. */
  lemma RecordatorioOfRemainder(text: string, token: string, desc: string, parseDate: string -> Option<Instant>)
    requires Argument(text, 14) == token + " " + desc
    requires ' ' !in token && desc != []
    ensures ParseRecordatorio(text, parseDate)
         == match parseDate(token + ":00")
            case None => FechaInvalida
            case Some(when) => AgregarRecordatorio(desc, when)
  {
    var resto := token + " " + desc;
    assert resto[..|token|] == token;
    IndexOfAt(resto, ' ', |token|);
    assert resto[|token| + 1..] == desc;
    assert DateText(token) == token + ":00";
  }

  /** "/recordatorio " followed by a date token and a description: the
      token (which holds no space, so replace(" ", "T") leaves it alone) is
      handed to the date parser with ":00" appended, and everything after
      the first space becomes the description. */
  lemma RecordatorioRoundTrip(token: string, desc: string, parseDate: string -> Option<Instant>)
    requires token != [] && ' ' !in token && !IsSpace(token[0])
    requires desc != [] && !IsSpace(desc[|desc| - 1])
    ensures Dispatch(MyWhatsAppNumber, Some("/recordatorio " + token + " " + desc), parseDate)
         == match parseDate(token + ":00")
            case None => FechaInvalida
            case Some(when) => AgregarRecordatorio(desc, when)
  {
    var arg := token + " " + desc;
    var text := "/recordatorio " + token + " " + desc;
    assert text == Keyword(OnRecordatorio) + arg;
    assert arg[0] == token[0] && arg[|arg| - 1] == desc[|desc| - 1];
    DispatchCommand(OnRecordatorio, arg, parseDate);
    ArgumentAfter("/recordatorio ", arg);
    RecordatorioOfRemainder(text, token, desc, parseDate);
  }

  /** The usage line advertises "/recordatorio <YYYY-MM-DD HH:MM> <texto>",
      but the split at the first space hands only the date to the date
      parser and makes the time part of the description. */
  lemma UsageFormatSplitsAtDate(hora: string, texto: string, parseDate: string -> Option<Instant>)
    requires hora != [] && !IsSpace(hora[0])
    requires texto != [] && !IsSpace(texto[|texto| - 1])
    ensures Dispatch(MyWhatsAppNumber, Some("/recordatorio 2025-01-10 " + hora + " " + texto), parseDate)
         == match parseDate("2025-01-10:00")
            case None => FechaInvalida
            case Some(when) => AgregarRecordatorio(hora + " " + texto, when)
  {
    var token := "2025-01-10";
    var desc := hora + " " + texto;
    assert "/recordatorio 2025-01-10 " + hora + " " + texto == "/recordatorio " + token + " " + desc;
    assert desc[|desc| - 1] == texto[|texto| - 1];
    assert token + ":00" == "2025-01-10:00";
    RecordatorioRoundTrip(token, desc, parseDate);
  }

  /** Two spaces and a command word lower-case and trim to the command
      word alone. */
  lemma LoweredAfterSpaces(kw: string, arg: string)
    requires kw != [] && kw[0] == '/' && ToLower(kw) == kw
    requires arg != [] && !IsSpace(arg[|arg| - 1])
    ensures Lowered("  " + kw + arg) == kw + ToLower(arg)
  {
    assert "  " + kw + arg == "  " + (kw + arg);
    LowerAfterSpaces(kw + arg);
    TrimAfterSpaces(ToLower(kw + arg));
    LoweredCommand(kw, arg);
  }

  /** Spaces are left as they are by lower-casing. */
  lemma LowerAfterSpaces(s: string)
    ensures ToLower("  " + s) == "  " + ToLower(s)
  {
    LowerAppend("  ", s);
    assert ToLower("  ") == "  ";
  }

  /** Two spaces before "/tarea " do not keep the text from taking the
      /tarea branch. */
  lemma LeadingSpaceClassify(arg: string)
    requires arg != [] && !IsSpace(arg[|arg| - 1])
    ensures Classify(Lowered("  /tarea " + arg)) == OnTarea
  {
    assert "  /tarea " + arg == "  " + "/tarea " + arg;
    LoweredAfterSpaces("/tarea ", arg);
    var l := "/tarea " + ToLower(arg);
    assert l[..7] == "/tarea ";
    ClassifiesAs(OnTarea, l);
  }

  /** Matching is done on the trimmed text but arguments are sliced from
      the text as received, so leading white space shifts the slice: with
      two spaces before "/tarea " the description starts with the "a" of
      the command word. */
  lemma LeadingSpaceShiftsArgument(arg: string, parseDate: string -> Option<Instant>)
    requires arg != [] && !IsSpace(arg[|arg| - 1])
    ensures Dispatch(MyWhatsAppNumber, Some("  /tarea " + arg), parseDate) == AgregarTarea("a " + arg)
  {
    LeadingSpaceClassify(arg);
    ShiftedArgument(arg);
    TareaOfArgument("  /tarea " + arg, parseDate);
  }

  /** Slicing "  /tarea " + arg at 7 cuts the command word short by two. */
  lemma ShiftedArgument(arg: string)
    requires arg != [] && !IsSpace(arg[|arg| - 1])
    ensures Argument("  /tarea " + arg, 7) == "a " + arg
  {
    var shifted := "a " + arg;
    assert "  /tarea " + arg == "  /tare" + shifted;
    assert shifted[|shifted| - 1] == arg[|arg| - 1];
    ArgumentAfter("  /tare", shifted);
  }

  /** A text that takes the /tarea branch with a non-empty argument adds
      that argument. */
  lemma TareaOfArgument(text: string, parseDate: string -> Option<Instant>)
    requires Classify(Lowered(text)) == OnTarea && Argument(text, 7) != []
    ensures Dispatch(MyWhatsAppNumber, Some(text), parseDate) == AgregarTarea(Argument(text, 7))
  {
    assert Route(OnTarea, text, parseDate) == ParseTarea(text);
  }

  /** /componente with at least four pieces whose stock parseInt rejects,
      or whose cost parseFloat rejects, replies "Valores de stock/costo
      inválidos.". */
  lemma ComponenteNotANumber(text: string, parseDate: string -> Option<Instant>)
    requires Classify(Lowered(text)) == OnComponente
    requires |Split(text, ' ')| >= 4
    requires ParseInt(Split(text, ' ')[2]).None? || !ParsesAsFloat(Split(text, ' ')[3])
    ensures Dispatch(MyWhatsAppNumber, Some(text), parseDate).ComponenteInvalido?
  {
  }

  /** When textLower is longer than k, textUser.slice(k).trim() is not
      empty: the last character of textLower that is not white space lies
      at position k or later in textUser too. */
  lemma ArgumentNotEmpty(textUser: string, k: nat)
    requires k < |Lowered(textUser)|
    ensures Argument(textUser, k) != []
  {
    var tr := Trim(textUser);
    var lead := LeadingSpace(textUser);
    TrimLower(textUser);
    TrimIsPiece(textUser);
    var j := lead + |tr| - 1;
    assert textUser[j] == tr[|tr| - 1];
    var a := Slice(textUser, k);
    assert a[j - k] == textUser[j];
    TrimShape(a);
  }

  /** A text that takes the branch of a command word ending in a space
      has an argument after that word: textLower is trimmed, so it cannot
      end in that space. */
  lemma KeywordArgument(textUser: string, b: Branch)
    requires b != OnHola && b != OnListar && b != OnOther
    requires Classify(Lowered(textUser)) == b
    ensures Argument(textUser, |Keyword(b)|) != []
  {
    var l := Lowered(textUser);
    var kw := Keyword(b);
    assert |kw| <= |l| && l[..|kw|] == kw;
    assert kw[|kw| - 1] == ' ';
    ArgumentNotEmpty(textUser, |kw|);
  }

  /** A branch with a usage reply sends it only for an empty argument. */
  lemma RouteNotUsage(b: Branch, textUser: string, parseDate: string -> Option<Instant>)
    requires b == OnTarea || b == OnVercomp || b == OnInfo || b == OnQuiz
    requires Argument(textUser, |Keyword(b)|) != []
    ensures var c := Route(b, textUser, parseDate);
      !c.UsoTarea? && !c.UsoVercomp? && !c.UsoInfo? && !c.UsoQuiz?
  {
    match b
    case OnTarea => assert Route(b, textUser, parseDate) == ParseTarea(textUser);
    case OnVercomp => assert Route(b, textUser, parseDate) == ParseVercomp(textUser);
    case OnInfo => assert Route(b, textUser, parseDate) == ParseInfo(textUser);
    case OnQuiz => assert Route(b, textUser, parseDate) == ParseQuiz(textUser);
  }

  /** The other branches have no usage reply of those four commands. */
  lemma RouteOtherNotUsage(b: Branch, textUser: string, parseDate: string -> Option<Instant>)
    requires b != OnTarea && b != OnVercomp && b != OnInfo && b != OnQuiz
    ensures var c := Route(b, textUser, parseDate);
      !c.UsoTarea? && !c.UsoVercomp? && !c.UsoInfo? && !c.UsoQuiz?
  {
  }

  /** The usage replies of /tarea, /vercomp, /info and /quiz are never
      sent, like "Falta descripción": a command word followed only by white
      space never reaches its branch. */
  lemma EmptyArgumentUnreachable(from: string, body: Option<string>, parseDate: string -> Option<Instant>)
    ensures var c := Dispatch(from, body, parseDate);
      !c.UsoTarea? && !c.UsoVercomp? && !c.UsoInfo? && !c.UsoQuiz?
  {
    var textUser := if body.Some? then body.value else "";
    var b := Classify(Lowered(textUser));
    if from == MyWhatsAppNumber && (b == OnTarea || b == OnVercomp || b == OnInfo || b == OnQuiz) {
      KeywordArgument(textUser, b);
      RouteNotUsage(b, textUser, parseDate);
    } else if from == MyWhatsAppNumber {
      RouteOtherNotUsage(b, textUser, parseDate);
    }
  }
}
