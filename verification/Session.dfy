/** The backup session of one client: client/src/filededup.c and `update_file_recipe` of
    client/src/chunkdedup.c on one side, the loop of `new_backup` in
    server/src/dedupHandle.c with server/src/backup.c on the other. Each side is a machine
    that sees its own state and the messages it gets; the network delivers in order. */
module Session {
  import opened Types
  import B = BinVolume
  import R = RecipeVolume

  type List = R.Recipe
  /** What the server's index and recipe log know. */
  type Table = map<Fingerprint, List>

  /** A file to back up: what `chunk_dedup` makes of it, should the server not know it. */
  datatype File = File(path: string, hash: Fingerprint, chunks: List)

  const SUCCESS: Byte := 1
  const NEW_FILE: Byte := 0
  const DEDUP_FILE: Byte := 1
  const FILE_HASH := 1
  const FILE_RECIPE := 2

  datatype Msg =
    | Kind(kind: nat) | Hash(hash: Fingerprint) | Answer(octets: Bytes) | Count(n: nat) | Piece(info: B.Entry)
    | Attr(chunknum: nat, path: string) | UpdateOk | StreamEnd | BackupOk

  /** `strlen` octets of a buffer. */
  function CString(s: Bytes): Bytes {
    if s == [] || s[0] == 0 then [] else [s[0]] + CString(s[1..])
  }

  /** What the server sends for a file: since NEW_FILE is 0 the string ends before it. */
  function AnswerFor(isNew: bool): Msg {
    Answer(CString([SUCCESS, if isNew then NEW_FILE else DEDUP_FILE]))
  }

  /** What the client finds at a position of the buffer that it cleared before receiving. */
  function OctetAt(octets: Bytes, i: nat): Byte {
    if i < |octets| then octets[i] else 0
  }

  // -------------------------------------------------------------------- the client

  datatype ClientPc =
    | Begin(todo: seq<File>)
    | SendHash(todo: seq<File>)
    | AwaitAnswer(todo: seq<File>)
    | AwaitCount(todo: seq<File>)
    | AwaitPieces(todo: seq<File>, n: nat, got: List)
    | SendRecipe(todo: seq<File>, isNew: bool, list: List)
    | SendAttr(todo: seq<File>, isNew: bool, list: List)
    | SendPieces(todo: seq<File>, list: List, k: nat)
    | AwaitOk(todo: seq<File>, list: List)
    | AwaitEnd(todo: seq<File>)
    | Finished(todo: seq<File>)

  datatype Done = Done(file: File, list: List)

  datatype Client = Client(pc: ClientPc, done: seq<Done>)

  function PiecesPc(todo: seq<File>, list: List, k: nat): ClientPc {
    if k < |list| then SendPieces(todo, list, k) else AwaitOk(todo, list)
  }

  function GotPc(todo: seq<File>, n: nat, got: List): ClientPc {
    if |got| < n then AwaitPieces(todo, n, got) else SendRecipe(todo, false, got)
  }

  function ClientSend(c: Client): Option<(Msg, Client)> {
    match c.pc
    case Begin(todo) =>
      if todo == [] then Some((StreamEnd, c.(pc := AwaitEnd(todo))))
      else Some((Kind(FILE_HASH), c.(pc := SendHash(todo))))
    case SendHash(todo) =>
      if todo == [] then None else Some((Hash(todo[0].hash), c.(pc := AwaitAnswer(todo))))
    case SendRecipe(todo, isNew, list) => Some((Kind(FILE_RECIPE), c.(pc := SendAttr(todo, isNew, list))))
    case SendAttr(todo, isNew, list) =>
      if todo == [] then None else
        Some((Attr(|list|, todo[0].path), c.(pc := if isNew then PiecesPc(todo, list, 0) else AwaitOk(todo, list))))
    case SendPieces(todo, list, k) =>
      if k < |list| then Some((Piece(list[k]), c.(pc := PiecesPc(todo, list, k + 1)))) else None
    case _ => None
  }

  function ClientReceive(c: Client, m: Msg): Option<Client> {
    match (c.pc, m)
    case (AwaitAnswer(todo), Answer(octets)) =>
      if todo == [] || OctetAt(octets, 0) != SUCCESS then None
      else if OctetAt(octets, 1) == NEW_FILE then Some(c.(pc := SendRecipe(todo, true, todo[0].chunks)))
      else Some(c.(pc := AwaitCount(todo)))
    case (AwaitCount(todo), Count(n)) => Some(c.(pc := GotPc(todo, n, [])))
    case (AwaitPieces(todo, n, got), Piece(info)) => Some(c.(pc := GotPc(todo, n, got + [info])))
    case (AwaitOk(todo, list), UpdateOk) =>
      if todo == [] then None else Some(Client(Begin(todo[1..]), c.done + [Done(todo[0], list)]))
    case (AwaitEnd(todo), BackupOk) => Some(c.(pc := Finished(todo)))
    case _ => None
  }

  // -------------------------------------------------------------------- the server

  /** `rp`, the recipe that the loop keeps from one message to the next. */
  datatype Rp = Rp(hash: Fingerprint, isNew: bool, list: List)

  datatype ServerPc =
    | Idle(last: Option<Rp>)
    | TakeHash
    | SendAnswer(rp: Rp)
    | SendCount(rp: Rp)
    | SendList(rp: Rp, k: nat)
    | TakeAttr(rp: Rp)
    | TakePieces(rp: Rp, n: nat, got: List)
    | SendOk
    | SendEnd
    | Closed

  datatype Server = Server(pc: ServerPc, table: Table)

  /** `index_insert` after `write_recipe_to_vol`: an entry that is there stays. */
  function Insert(table: Table, hash: Fingerprint, list: List): Table {
    if hash in table then table else table[hash := list]
  }

  function ListPc(rp: Rp, k: nat): ServerPc {
    if k < |rp.list| then SendList(rp, k) else Idle(Some(rp))
  }

  function Taken(table: Table, rp: Rp, n: nat, got: List): Server {
    if |got| < n then Server(TakePieces(rp, n, got), table) else Server(SendOk, Insert(table, rp.hash, got))
  }

  function ServerSend(sv: Server): Option<(Msg, Server)> {
    match sv.pc
    case SendAnswer(rp) => Some((AnswerFor(rp.isNew), sv.(pc := if rp.isNew then Idle(Some(rp)) else SendCount(rp))))
    case SendCount(rp) => Some((Count(|rp.list|), sv.(pc := ListPc(rp, 0))))
    case SendList(rp, k) => if k < |rp.list| then Some((Piece(rp.list[k]), sv.(pc := ListPc(rp, k + 1)))) else None
    case SendOk => Some((UpdateOk, sv.(pc := Idle(None))))
    case SendEnd => Some((BackupOk, sv.(pc := Closed)))
    case _ => None
  }

  function ServerReceive(sv: Server, m: Msg): Option<Server> {
    match (sv.pc, m)
    case (Idle(_), StreamEnd) => Some(sv.(pc := SendEnd))
    case (Idle(last), Kind(kind)) =>
      if kind == FILE_HASH then Some(sv.(pc := TakeHash))
      else if kind == FILE_RECIPE && last.Some? then Some(sv.(pc := TakeAttr(last.value)))
      else None
    case (TakeHash, Hash(hash)) =>
      var known := hash in sv.table;
      Some(sv.(pc := SendAnswer(Rp(hash, !known, if known then sv.table[hash] else []))))
    case (TakeAttr(rp), Attr(n, path)) => if rp.isNew then Some(Taken(sv.table, rp, n, [])) else Some(sv.(pc := SendOk))
    case (TakePieces(rp, n, got), Piece(info)) => Some(Taken(sv.table, rp, n, got + [info]))
    case _ => None
  }

  // ----------------------------------------------------------------- the whole system

  datatype State = State(client: Client, server: Server, toServer: seq<Msg>, toClient: seq<Msg>)

  function Start(files: seq<File>, table: Table): State {
    State(Client(Begin(files), []), Server(Idle(None), table), [], [])
  }

  /** One side sends, or takes the next message that was sent to it. */
  ghost predicate Step(s: State, t: State) {
    || (ClientSend(s.client).Some? &&
        t == s.(client := ClientSend(s.client).value.1, toServer := s.toServer + [ClientSend(s.client).value.0]))
    || (ServerSend(s.server).Some? &&
        t == s.(server := ServerSend(s.server).value.1, toClient := s.toClient + [ServerSend(s.server).value.0]))
    || (s.toServer != [] && ServerReceive(s.server, s.toServer[0]).Some? &&
        t == s.(server := ServerReceive(s.server, s.toServer[0]).value, toServer := s.toServer[1..]))
    || (s.toClient != [] && ClientReceive(s.client, s.toClient[0]).Some? &&
        t == s.(client := ClientReceive(s.client, s.toClient[0]).value, toClient := s.toClient[1..]))
  }

  /** Neither side can go on. */
  ghost predicate Stuck(s: State) {
    forall t :: !Step(s, t)
  }

  ghost predicate Run(files: seq<File>, table: Table, states: seq<State>) {
    && states != [] && states[0] == Start(files, table)
    && forall i :: 0 < i < |states| ==> StepTo(states, i)
  }

  ghost predicate StepTo(states: seq<State>, i: nat)
    requires 0 < i < |states|
  {
    Step(states[i - 1], states[i])
  }

  lemma RunInit(files: seq<File>, table: Table, states: seq<State>)
    requires Run(files, table, states) && |states| > 1
    ensures Run(files, table, states[..|states| - 1]) && Step(states[|states| - 2], states[|states| - 1])
  {
    hide Step;
    var init := states[..|states| - 1];
    forall i | 0 < i < |init|
      ensures StepTo(init, i)
    {
      assert StepTo(states, i);
    }
    assert StepTo(states, |states| - 1);
  }

  // -------------------------------------------------------------------- the script

  /** A message of the session; the server's messages are annotated with what it then knows. */
  datatype Event = C(m: Msg) | S(m: Msg, known: Table)

  function Learn(table: Table, f: File): Table {
    Insert(table, f.hash, f.chunks)
  }

  function Script(todo: seq<File>, table: Table): (s: seq<Event>)
    ensures s != []
  {
    if todo == [] then [C(StreamEnd)] + EndPart(table)
    else [C(Kind(FILE_HASH))] + HashPart(todo[0], table, Script(todo[1..], Learn(table, todo[0])))
  }

  function EndPart(table: Table): seq<Event> {
    [S(BackupOk, table)]
  }

  function HashPart(f: File, table: Table, rest: seq<Event>): seq<Event> {
    [C(Hash(f.hash))] + AnswerPart(f, table, rest)
  }

  function AnswerPart(f: File, table: Table, rest: seq<Event>): seq<Event> {
    [S(AnswerFor(f.hash !in table), table)]
    + if f.hash in table then CountPart(f, table, table[f.hash], rest) else RecipePart(f, table, true, f.chunks, rest)
  }

  function CountPart(f: File, table: Table, list: List, rest: seq<Event>): seq<Event> {
    [S(Count(|list|), table)] + ListPart(f, table, list, 0, rest)
  }

  function ListPart(f: File, table: Table, list: List, k: nat, rest: seq<Event>): seq<Event>
    decreases |list| - k
  {
    if k < |list| then [S(Piece(list[k]), table)] + ListPart(f, table, list, k + 1, rest)
    else RecipePart(f, table, false, list, rest)
  }

  function RecipePart(f: File, table: Table, isNew: bool, list: List, rest: seq<Event>): seq<Event> {
    [C(Kind(FILE_RECIPE))] + AttrPart(f, table, isNew, list, rest)
  }

  function AttrPart(f: File, table: Table, isNew: bool, list: List, rest: seq<Event>): seq<Event> {
    [C(Attr(|list|, f.path))] + if isNew then PiecesPart(f, table, list, 0, rest) else OkPart(Learn(table, f), rest)
  }

  function PiecesPart(f: File, table: Table, list: List, k: nat, rest: seq<Event>): seq<Event>
    decreases |list| - k
  {
    if k < |list| then [C(Piece(list[k]))] + PiecesPart(f, table, list, k + 1, rest) else OkPart(Learn(table, f), rest)
  }

  function OkPart(table: Table, rest: seq<Event>): seq<Event> {
    [S(UpdateOk, table)] + rest
  }

  // ------------------------------------------------------ each side follows the script

  ghost predicate Within(a: Table, b: Table) {
    forall h :: h in a ==> h in b && b[h] == a[h]
  }

  /** What is left of the script from the client's point of view; `table` is what the server
      knew when the client began with its current file. */
  function ClientRest(pc: ClientPc, table: Table): seq<Event> {
    if pc.Begin? then Script(pc.todo, table)
    else if pc.AwaitEnd? then EndPart(table)
    else if pc.Finished? || pc.todo == [] then []
    else
      var f, rest := pc.todo[0], Script(pc.todo[1..], Learn(table, pc.todo[0]));
      match pc
      case SendHash(_) => HashPart(f, table, rest)
      case AwaitAnswer(_) => AnswerPart(f, table, rest)
      case AwaitCount(_) => if f.hash in table then CountPart(f, table, table[f.hash], rest) else []
      case AwaitPieces(_, _, got) => if f.hash in table then ListPart(f, table, table[f.hash], |got|, rest) else []
      case SendRecipe(_, isNew, list) => RecipePart(f, table, isNew, list, rest)
      case SendAttr(_, isNew, list) => AttrPart(f, table, isNew, list, rest)
      case SendPieces(_, list, k) => PiecesPart(f, table, list, k, rest)
      case AwaitOk(_, _) => OkPart(Learn(table, f), rest)
  }

  ghost predicate ClientOk(c: Client, table: Table) {
    && (forall d :: d in c.done ==> d.file.hash in table && table[d.file.hash] == d.list)
    && PcOk(c.pc, table)
  }

  ghost predicate PcOk(pc: ClientPc, table: Table) {
    if pc.Begin? then true
    else if pc.AwaitEnd? || pc.Finished? then pc.todo == []
    else
      && pc.todo != []
      && var f := pc.todo[0];
         match pc
         case SendHash(_) => true
         case AwaitAnswer(_) => true
         case AwaitCount(_) => f.hash in table
         case AwaitPieces(_, n, got) => f.hash in table && n == |table[f.hash]| && |got| < n
             && got == table[f.hash][..|got|]
         case SendRecipe(_, isNew, list) => (isNew <==> f.hash !in table) && list == Learn(table, f)[f.hash]
         case SendAttr(_, isNew, list) => (isNew <==> f.hash !in table) && list == Learn(table, f)[f.hash]
         case SendPieces(_, list, k) => f.hash !in table && list == f.chunks && k < |list|
         case AwaitOk(_, list) => list == Learn(table, f)[f.hash]
  }

  /** The table of the client's view after an event. */
  function After(table: Table, e: Event): Table {
    if e.S? && e.m.UpdateOk? then e.known else table
  }

  /** The client sends what the script says, takes what the script says, and stops at its end. */
  ghost predicate ClientOnScript(c: Client, table: Table) {
    var rest := ClientRest(c.pc, table);
    if rest == [] then c.pc.Finished? && ClientSend(c) == None
    else if rest[0].C? then
      && ClientSend(c).Some? && ClientSend(c).value.0 == rest[0].m
      && var c' := ClientSend(c).value.1;
         ClientOk(c', table) && ClientRest(c'.pc, table) == rest[1..] && c'.done == c.done && c'.pc.todo == c.pc.todo
    else
      && ClientSend(c) == None && ClientReceive(c, rest[0].m).Some?
      && var c' := ClientReceive(c, rest[0].m).value;
         && ClientOk(c', After(table, rest[0])) && ClientRest(c'.pc, After(table, rest[0])) == rest[1..]
         && DoneFiles(c'.done) + c'.pc.todo == DoneFiles(c.done) + c.pc.todo
  }

  lemma Tail(e: Event, t: seq<Event>)
    ensures ([e] + t)[0] == e && ([e] + t)[1..] == t
  {
  }

  lemma ClientFollows(c: Client, table: Table)
    requires ClientOk(c, table)
    ensures ClientOnScript(c, table)
  {
    hide Script, ClientOnScript, ClientOk, PcOk;
    if c.pc.Begin? || c.pc.AwaitEnd? || c.pc.Finished? {
      AtTheEnds(c, table);
    } else if c.pc.AwaitCount? || c.pc.AwaitPieces? {
      Gathering(c, table);
    } else if c.pc.AwaitOk? {
      AtTheOk(c, table);
    } else if c.pc.AwaitAnswer? {
      AtTheAnswer(c, table);
    } else if c.pc.SendHash? {
      AtTheHash(c, table);
    } else if c.pc.SendRecipe? {
      AtTheRecipe(c, table);
    } else if c.pc.SendAttr? {
      AtTheAttr(c, table);
    } else {
      AtThePieces(c, table);
    }
  }

  lemma AtTheEnds(c: Client, table: Table)
    requires ClientOk(c, table) && (c.pc.Begin? || c.pc.AwaitEnd? || c.pc.Finished?)
    ensures ClientOnScript(c, table)
  {
    hide Script, HashPart;
    ScriptHead(c.pc.todo, table);
    if c.pc.Begin? && c.pc.todo != [] {
      Tail(C(Kind(FILE_HASH)), HashPart(c.pc.todo[0], table, Script(c.pc.todo[1..], Learn(table, c.pc.todo[0]))));
    } else {
      Tail(C(StreamEnd), EndPart(table));
      Tail(S(BackupOk, table), []);
    }
  }

  lemma AtTheAnswer(c: Client, table: Table)
    requires ClientOk(c, table) && c.pc.AwaitAnswer?
    ensures ClientOnScript(c, table)
  {
    hide Script, CountPart, RecipePart, AnswerFor;
    var f, rest := c.pc.todo[0], Script(c.pc.todo[1..], Learn(table, c.pc.todo[0]));
    AnswerRead(f.hash !in table);
    AnswerKind(f.hash !in table);
    Tail(S(AnswerFor(f.hash !in table), table),
         if f.hash in table then CountPart(f, table, table[f.hash], rest)
         else RecipePart(f, table, true, f.chunks, rest));
  }

  lemma Gathering(c: Client, table: Table)
    requires ClientOk(c, table) && (c.pc.AwaitCount? || c.pc.AwaitPieces?)
    ensures ClientOnScript(c, table)
  {
    hide Script, RecipePart;
    var f, rest := c.pc.todo[0], Script(c.pc.todo[1..], Learn(table, c.pc.todo[0]));
    var list := table[f.hash];
    if c.pc.AwaitPieces? {
      var k := |c.pc.got|;
      assert c.pc.got + [list[k]] == list[..k + 1];
      Tail(S(Piece(list[k]), table), ListPart(f, table, list, k + 1, rest));
    } else {
      Tail(S(Count(|list|), table), ListPart(f, table, list, 0, rest));
    }
    assert list[..|list|] == list;
  }

  lemma AtTheOk(c: Client, table: Table)
    requires ClientOk(c, table) && c.pc.AwaitOk?
    ensures ClientOnScript(c, table)
  {
    hide Script;
    var todo := c.pc.todo;
    Tail(S(UpdateOk, Learn(table, todo[0])), Script(todo[1..], Learn(table, todo[0])));
    assert (c.done + [Done(todo[0], c.pc.list)])[..|c.done|] == c.done;
    assert DoneFiles(c.done) + [todo[0]] + todo[1..] == DoneFiles(c.done) + todo;
  }

  lemma AtTheHash(c: Client, table: Table)
    requires ClientOk(c, table) && c.pc.SendHash?
    ensures ClientOnScript(c, table)
  {
    hide Script, AnswerPart, OkPart, ClientReceive, DoneFiles;
    var f, rest := c.pc.todo[0], Script(c.pc.todo[1..], Learn(table, c.pc.todo[0]));
    Tail(C(Hash(f.hash)), AnswerPart(f, table, rest));
  }

  lemma AtTheRecipe(c: Client, table: Table)
    requires ClientOk(c, table) && c.pc.SendRecipe?
    ensures ClientOnScript(c, table)
  {
    hide Script, AnswerPart, OkPart, ClientReceive, DoneFiles;
    var f, rest := c.pc.todo[0], Script(c.pc.todo[1..], Learn(table, c.pc.todo[0]));
    Tail(C(Kind(FILE_RECIPE)), AttrPart(f, table, c.pc.isNew, c.pc.list, rest));
  }

  lemma AtTheAttr(c: Client, table: Table)
    requires ClientOk(c, table) && c.pc.SendAttr?
    ensures ClientOnScript(c, table)
  {
    hide Script, AnswerPart, OkPart, ClientReceive, DoneFiles;
    var f, rest := c.pc.todo[0], Script(c.pc.todo[1..], Learn(table, c.pc.todo[0]));
    var list := c.pc.list;
    Tail(C(Attr(|list|, f.path)),
         if c.pc.isNew then PiecesPart(f, table, list, 0, rest) else OkPart(Learn(table, f), rest));
  }

  lemma AtThePieces(c: Client, table: Table)
    requires ClientOk(c, table) && c.pc.SendPieces?
    ensures ClientOnScript(c, table)
  {
    hide Script, AnswerPart, OkPart, ClientReceive, DoneFiles;
    var f, rest := c.pc.todo[0], Script(c.pc.todo[1..], Learn(table, c.pc.todo[0]));
    Tail(C(Piece(c.pc.list[c.pc.k])), PiecesPart(f, table, c.pc.list, c.pc.k + 1, rest));
  }

  function DoneFiles(done: seq<Done>): seq<File> {
    if done == [] then [] else DoneFiles(done[..|done| - 1]) + [done[|done| - 1].file]
  }

  lemma ScriptHead(todo: seq<File>, table: Table)
    ensures Script(todo, table) ==
            if todo == [] then [C(StreamEnd)] + EndPart(table)
            else [C(Kind(FILE_HASH))] + HashPart(todo[0], table, Script(todo[1..], Learn(table, todo[0])))
  {
  }

  /** Both answers arrive as they were meant, although one of them is cut short. */
  lemma AnswerRead(isNew: bool)
    ensures OctetAt(AnswerFor(isNew).octets, 0) == SUCCESS
    ensures OctetAt(AnswerFor(isNew).octets, 1) == if isNew then NEW_FILE else DEDUP_FILE
  {
    assert CString([SUCCESS, if isNew then NEW_FILE else DEDUP_FILE][1..]) == if isNew then [] else [DEDUP_FILE];
  }

  /** What is left of the script from the server's point of view, `todo` being the files that
      it has not finished. */
  function ServerRest(sv: Server, todo: seq<File>): seq<Event> {
    if sv.pc.Closed? then []
    else if sv.pc.SendEnd? then EndPart(sv.table)
    else if sv.pc == Idle(None) then Script(todo, sv.table)
    else if todo == [] then []
    else if sv.pc.SendOk? then OkPart(sv.table, Script(todo[1..], sv.table))
    else FileRest(sv.pc, sv.table, todo[0], Script(todo[1..], Learn(sv.table, todo[0])))
  }

  function FileRest(pc: ServerPc, table: Table, f: File, rest: seq<Event>): seq<Event> {
    match pc
    case Idle(last) => if last == None then [] else RecipePart(f, table, last.value.isNew, RpList(last.value, f), rest)
    case TakeHash => HashPart(f, table, rest)
    case SendAnswer(_) => AnswerPart(f, table, rest)
    case SendCount(rp) => CountPart(f, table, rp.list, rest)
    case SendList(rp, k) => ListPart(f, table, rp.list, k, rest)
    case TakeAttr(rp) => AttrPart(f, table, rp.isNew, RpList(rp, f), rest)
    case TakePieces(_, _, got) => PiecesPart(f, table, f.chunks, |got|, rest)
    case _ => []
  }

  /** The list that the session will leave at both sides. */
  function RpList(rp: Rp, f: File): List {
    if rp.isNew then f.chunks else rp.list
  }

  ghost predicate RpOk(rp: Rp, table: Table, todo: seq<File>) {
    && todo != [] && rp.hash == todo[0].hash
    && (rp.isNew <==> rp.hash !in table)
    && (!rp.isNew ==> rp.list == table[rp.hash])
  }

  ghost predicate ServerOk(sv: Server, todo: seq<File>) {
    match sv.pc
    case Idle(last) => last.Some? ==> RpOk(last.value, sv.table, todo)
    case TakeHash => todo != []
    case SendAnswer(rp) => RpOk(rp, sv.table, todo)
    case SendCount(rp) => RpOk(rp, sv.table, todo) && !rp.isNew
    case SendList(rp, k) => RpOk(rp, sv.table, todo) && !rp.isNew && k < |rp.list|
    case TakeAttr(rp) => RpOk(rp, sv.table, todo)
    case TakePieces(rp, n, got) =>
      RpOk(rp, sv.table, todo) && rp.isNew && n == |todo[0].chunks| && |got| < n && got == todo[0].chunks[..|got|]
    case SendOk => todo != [] && todo[0].hash in sv.table
    case _ => todo == []
  }

  function Remaining(todo: seq<File>, e: Event): seq<File> {
    if e.m.UpdateOk? && todo != [] then todo[1..] else todo
  }

  /** The server follows the script too, and only ever learns. */
  ghost predicate ServerOnScript(sv: Server, todo: seq<File>) {
    var rest := ServerRest(sv, todo);
    if rest == [] then sv.pc.Closed? && ServerSend(sv) == None
    else if rest[0].S? then
      && ServerSend(sv).Some? && ServerSend(sv).value.0 == rest[0].m && Within(rest[0].known, sv.table)
      && var sv' := ServerSend(sv).value.1;
         && sv'.table == sv.table && ServerOk(sv', Remaining(todo, rest[0]))
         && ServerRest(sv', Remaining(todo, rest[0])) == rest[1..]
    else
      && ServerSend(sv) == None && ServerReceive(sv, rest[0].m).Some?
      && var sv' := ServerReceive(sv, rest[0].m).value;
         Within(sv.table, sv'.table) && ServerOk(sv', todo) && ServerRest(sv', todo) == rest[1..]
  }

  lemma ServerFollows(sv: Server, todo: seq<File>)
    requires ServerOk(sv, todo)
    ensures ServerOnScript(sv, todo)
  {
    hide Script, ServerOnScript, ServerOk;
    if sv.pc.Idle? || sv.pc.Closed? || sv.pc.SendEnd? || sv.pc.SendOk? {
      Between(sv, todo);
    } else if sv.pc.TakePieces? {
      Learning(sv, todo);
    } else if sv.pc.TakeAttr? {
      Agreeing(sv, todo);
    } else {
      Answering(sv, todo);
    }
  }

  lemma Between(sv: Server, todo: seq<File>)
    requires ServerOk(sv, todo) && (sv.pc.Idle? || sv.pc.Closed? || sv.pc.SendEnd? || sv.pc.SendOk?)
    ensures ServerOnScript(sv, todo)
  {
    hide Script, HashPart, AttrPart;
    ScriptHead(todo, sv.table);
    Tail(C(StreamEnd), EndPart(sv.table));
    Tail(S(BackupOk, sv.table), []);
    if todo != [] {
      var f := todo[0];
      var rest := Script(todo[1..], Learn(sv.table, f));
      Tail(C(Kind(FILE_HASH)), HashPart(f, sv.table, rest));
      Tail(S(UpdateOk, sv.table), Script(todo[1..], sv.table));
      if sv.pc.Idle? && sv.pc.last != None {
        var rp := sv.pc.last.value;
        Tail(C(Kind(FILE_RECIPE)), AttrPart(f, sv.table, rp.isNew, RpList(rp, f), rest));
      }
    }
  }

  lemma Answering(sv: Server, todo: seq<File>)
    requires ServerOk(sv, todo) && (sv.pc.TakeHash? || sv.pc.SendAnswer? || sv.pc.SendCount? || sv.pc.SendList?)
    ensures ServerOnScript(sv, todo)
  {
    hide Script, RecipePart, AnswerFor;
    AnswerKind(true);
    AnswerKind(false);
    var f, table := todo[0], sv.table;
    var rest := Script(todo[1..], Learn(table, f));
    match sv.pc {
      case TakeHash => Tail(C(Hash(f.hash)), AnswerPart(f, table, rest));
      case SendAnswer(rp) =>
        Tail(S(AnswerFor(f.hash !in table), table),
             if f.hash in table then CountPart(f, table, table[f.hash], rest)
         else RecipePart(f, table, true, f.chunks, rest));
      case SendCount(rp) => Tail(S(Count(|rp.list|), table), ListPart(f, table, rp.list, 0, rest));
      case SendList(rp, k) => Tail(S(Piece(rp.list[k]), table), ListPart(f, table, rp.list, k + 1, rest));
    }
  }

  lemma AnswerKind(isNew: bool)
    ensures AnswerFor(isNew).Answer?
  {
  }

  lemma Learning(sv: Server, todo: seq<File>)
    requires ServerOk(sv, todo) && sv.pc.TakePieces?
    ensures ServerOnScript(sv, todo)
  {
    hide Script;
    var f, table, k := todo[0], sv.table, |sv.pc.got|;
    assert f.chunks[..|f.chunks|] == f.chunks;
    assert sv.pc.got + [f.chunks[k]] == f.chunks[..k + 1];
    Tail(C(Piece(f.chunks[k])), PiecesPart(f, table, f.chunks, k + 1, Script(todo[1..], Learn(table, f))));
  }

  lemma Agreeing(sv: Server, todo: seq<File>)
    requires ServerOk(sv, todo) && sv.pc.TakeAttr?
    ensures ServerOnScript(sv, todo)
  {
    hide Script;
    var f, table, rp := todo[0], sv.table, sv.pc.rp;
    var rest := Script(todo[1..], Learn(table, f));
    assert f.chunks[..0] == [] && f.chunks[..|f.chunks|] == f.chunks;
    Tail(C(Attr(|RpList(rp, f)|, f.path)),
         if rp.isNew then PiecesPart(f, table, f.chunks, 0, rest) else OkPart(Learn(table, f), rest));
  }

  // ------------------------------------------------------------- the global invariant

  function Msgs(events: seq<Event>): (ms: seq<Msg>)
    ensures |ms| == |events|
  {
    seq(|events|, i requires 0 <= i < |events| => events[i].m)
  }

  /** A list as messages, one entry each. */
  function Pieces(list: List, k: nat): seq<Msg>
    requires k <= |list|
  {
    seq(|list| - k, i requires 0 <= i < |list| - k => Piece(list[k + i]))
  }

  /** The whole exchange over a file, message by message: the client reports the fingerprint; a new
      file's recipe then goes to the server, a known one's comes to the client. */
  lemma FileMessages(f: File, todo: seq<File>, table: Table)
    ensures var rest := Msgs(Script(todo, Learn(table, f)));
            Msgs(Script([f] + todo, table)) ==
            if f.hash !in table
            then [Kind(1), Hash(f.hash), Answer([1]), Kind(2), Attr(|f.chunks|, f.path)]
                 + (Pieces(f.chunks, 0) + ([UpdateOk] + rest))
            else [Kind(1), Hash(f.hash), Answer([1, 1]), Count(|table[f.hash]|)]
                 + (Pieces(table[f.hash], 0) + ([Kind(2), Attr(|table[f.hash]|, f.path), UpdateOk] + rest))
  {
    hide Msgs, Pieces;
    var rest := Script(todo, Learn(table, f));
    ScriptCons(f, todo, table);
    if f.hash in table {
      KnownMessages(f, table, rest);
    } else {
      NewMessages(f, table, rest);
    }
  }

  lemma ScriptCons(f: File, todo: seq<File>, table: Table)
    ensures Script([f] + todo, table) == [C(Kind(1))] + HashPart(f, table, Script(todo, Learn(table, f)))
  {
    assert ([f] + todo)[1..] == todo;
  }

  lemma MsgsCons(e: Event, rest: seq<Event>)
    ensures Msgs([e] + rest) == [e.m] + Msgs(rest)
  {
  }

  lemma AnswerOctets()
    ensures AnswerFor(true) == Answer([1]) && AnswerFor(false) == Answer([1, 1])
  {
    assert CString([0]) == [] && CString([1]) == [1] + CString([]);
    assert CString([1, 0]) == [1] + CString([0]);
    assert CString([1, 1]) == [1] + CString([1]);
  }

  lemma KnownMessages(f: File, table: Table, rest: seq<Event>)
    requires f.hash in table
    ensures Msgs([C(Kind(1))] + HashPart(f, table, rest)) ==
            [Kind(1), Hash(f.hash), Answer([1, 1]), Count(|table[f.hash]|)]
            + (Pieces(table[f.hash], 0) + ([Kind(2), Attr(|table[f.hash]|, f.path), UpdateOk] + Msgs(rest)))
  {
    hide Msgs, Pieces, ListPart, RecipePart;
    var list := table[f.hash];
    AnswerOctets();
    MsgsCons(C(Kind(1)), HashPart(f, table, rest));
    MsgsCons(C(Hash(f.hash)), AnswerPart(f, table, rest));
    MsgsCons(S(AnswerFor(false), table), CountPart(f, table, list, rest));
    MsgsCons(S(Count(|list|), table), ListPart(f, table, list, 0, rest));
    ListMessages(f, table, list, 0, rest);
    RecipeMessages(f, table, list, rest);
  }

  lemma RecipeMessages(f: File, table: Table, list: List, rest: seq<Event>)
    ensures Msgs(RecipePart(f, table, false, list, rest)) == [Kind(2), Attr(|list|, f.path), UpdateOk] + Msgs(rest)
  {
    hide Msgs;
    MsgsCons(C(Kind(2)), AttrPart(f, table, false, list, rest));
    MsgsCons(C(Attr(|list|, f.path)), OkPart(Learn(table, f), rest));
    MsgsCons(S(UpdateOk, Learn(table, f)), rest);
  }

  lemma NewMessages(f: File, table: Table, rest: seq<Event>)
    requires f.hash !in table
    ensures Msgs([C(Kind(1))] + HashPart(f, table, rest)) ==
            [Kind(1), Hash(f.hash), Answer([1]), Kind(2), Attr(|f.chunks|, f.path)]
            + (Pieces(f.chunks, 0) + ([UpdateOk] + Msgs(rest)))
  {
    hide Msgs, Pieces, PiecesPart;
    AnswerOctets();
    MsgsCons(C(Kind(1)), HashPart(f, table, rest));
    MsgsCons(C(Hash(f.hash)), AnswerPart(f, table, rest));
    MsgsCons(S(AnswerFor(true), table), RecipePart(f, table, true, f.chunks, rest));
    MsgsCons(C(Kind(2)), AttrPart(f, table, true, f.chunks, rest));
    MsgsCons(C(Attr(|f.chunks|, f.path)), PiecesPart(f, table, f.chunks, 0, rest));
    PieceMessages(f, table, f.chunks, 0, rest);
    MsgsCons(S(UpdateOk, Learn(table, f)), rest);
  }

  lemma {:induction false} ListMessages(f: File, table: Table, list: List, k: nat, rest: seq<Event>)
    requires k <= |list|
    ensures Msgs(ListPart(f, table, list, k, rest)) ==
            Pieces(list, k) + Msgs(RecipePart(f, table, false, list, rest))
    decreases |list| - k
  {
    hide Msgs, RecipePart;
    if k < |list| {
      ListMessages(f, table, list, k + 1, rest);
      MsgsCons(S(Piece(list[k]), table), ListPart(f, table, list, k + 1, rest));
      PiecesCons(list, k);
    }
  }

  lemma {:induction false} PieceMessages(f: File, table: Table, list: List, k: nat, rest: seq<Event>)
    requires k <= |list|
    ensures Msgs(PiecesPart(f, table, list, k, rest)) == Pieces(list, k) + Msgs(OkPart(Learn(table, f), rest))
    decreases |list| - k
  {
    hide Msgs, OkPart;
    if k < |list| {
      PieceMessages(f, table, list, k + 1, rest);
      MsgsCons(C(Piece(list[k])), PiecesPart(f, table, list, k + 1, rest));
      PiecesCons(list, k);
    }
  }

  lemma PiecesCons(list: List, k: nat)
    requires k < |list|
    ensures Pieces(list, k) == [Piece(list[k])] + Pieces(list, k + 1)
  {
  }

  /** One side is ahead: what it already sent, and the other has not taken, is exactly the
      difference between the two remaining scripts. */
  ghost predicate Ahead(short: seq<Event>, long: seq<Event>, channel: seq<Msg>, byClient: bool) {
    && |short| <= |long| && long[|long| - |short|..] == short
    && channel == Msgs(long[..|long| - |short|])
    && forall i :: 0 <= i < |long| - |short| ==> (long[i].C? <==> byClient)
  }

  lemma AheadSend(short: seq<Event>, long: seq<Event>, channel: seq<Msg>, byClient: bool)
    requires Ahead(short, long, channel, byClient) && short != [] && (short[0].C? <==> byClient)
    ensures Ahead(short[1..], long, channel + [short[0].m], byClient)
  {
    var d := |long| - |short|;
    assert short[0] == long[d];
    assert Msgs(long[..d + 1]) == Msgs(long[..d]) + [long[d].m];
  }

  lemma AheadReceive(short: seq<Event>, long: seq<Event>, channel: seq<Msg>, byClient: bool)
    requires Ahead(short, long, channel, byClient) && channel != []
    ensures long != [] && long[0].m == channel[0] && (long[0].C? <==> byClient)
    ensures Ahead(short, long[1..], channel[1..], byClient)
  {
    var d := |long| - |short|;
    assert long[1..][..d - 1] == long[..d][1..];
  }

  lemma AheadEven(short: seq<Event>, long: seq<Event>, byClient: bool)
    requires Ahead(short, long, [], byClient)
    ensures short == long && Ahead(long, short, [], !byClient)
  {
  }

  ghost predicate Linked(rc: seq<Event>, rs: seq<Event>, s: State) {
    || (Ahead(rc, rs, s.toServer, true) && s.toClient == [])
    || (Ahead(rs, rc, s.toClient, false) && s.toServer == []
        && forall i :: 0 <= i < |rc| - |rs| ==> rc[i].S? && Within(rc[i].known, s.server.table))
  }

  /** `table` and `todo` are the views of client and server, `left` the messages to come. */
  ghost predicate Inv(files: seq<File>, s: State, table: Table, todo: seq<File>, left: nat) {
    && ClientOk(s.client, table) && ServerOk(s.server, todo)
    && Linked(ClientRest(s.client.pc, table), ServerRest(s.server, todo), s)
    && Within(table, s.server.table)
    && DoneFiles(s.client.done) + s.client.pc.todo == files
    && left == |ClientRest(s.client.pc, table)| + |ServerRest(s.server, todo)|
  }

  /** Every step keeps the invariant, and takes one message off what is left. */
  lemma InvStep(files: seq<File>, s: State, t: State, table: Table, todo: seq<File>, left: nat)
    returns (table': Table, todo': seq<File>)
    requires Inv(files, s, table, todo, left) && Step(s, t)
    ensures left > 0 && Inv(files, t, table', todo', left - 1)
  {
    hide ClientOk, ServerOk, ClientRest, ServerRest, ClientSend, ServerSend, ClientReceive, ServerReceive, DoneFiles,
         Ahead;
    ClientFollows(s.client, table);
    ServerFollows(s.server, todo);
    table', todo' := table, todo;
    var rc, rs := ClientRest(s.client.pc, table), ServerRest(s.server, todo);
    if ClientSend(s.client).Some?
        && t == s.(client := ClientSend(s.client).value.1, toServer := s.toServer + [ClientSend(s.client).value.0]) {
      ClientAhead(rc, rs, s);
      AheadSend(rc, rs, s.toServer, true);
    } else if ServerSend(s.server).Some?
        && t == s.(server := ServerSend(s.server).value.1, toClient := s.toClient + [ServerSend(s.server).value.0]) {
      ServerAhead(rc, rs, s);
      AheadSend(rs, rc, s.toClient, false);
      todo' := Remaining(todo, rs[0]);
      HeadInFlight(rc, rs, s.toClient);
    } else if s.toServer != []
        && t == s.(server := ServerReceive(s.server, s.toServer[0]).value, toServer := s.toServer[1..]) {
      AheadReceive(rc, rs, s.toServer, true);
    } else {
      AheadReceive(rs, rc, s.toClient, false);
      InFlight(rc, rs, s.toClient);
      table' := After(table, rc[0]);
    }
  }

  lemma InFlight(rc: seq<Event>, rs: seq<Event>, channel: seq<Msg>)
    requires Ahead(rs, rc, channel, false) && channel != []
    ensures |rc| - |rs| > 0
  {
  }

  lemma HeadInFlight(rc: seq<Event>, rs: seq<Event>, channel: seq<Msg>)
    requires Ahead(rs, rc, channel, false) && rs != []
    ensures |rc| >= |rs| && rc[|rc| - |rs|] == rs[0]
  {
  }

  /** If the client's next event is a message of its own, then it is not behind. */
  lemma ClientAhead(rc: seq<Event>, rs: seq<Event>, s: State)
    requires Linked(rc, rs, s) && rc != [] && rc[0].C?
    ensures Ahead(rc, rs, s.toServer, true) && s.toClient == []
  {
    if Ahead(rs, rc, s.toClient, false) && s.toServer == [] {
      assert s.toClient == [];
      AheadEven(rs, rc, false);
    }
  }

  lemma ServerAhead(rc: seq<Event>, rs: seq<Event>, s: State)
    requires Linked(rc, rs, s) && rs != [] && rs[0].S?
    ensures Ahead(rs, rc, s.toClient, false) && s.toServer == []
    ensures forall i :: 0 <= i < |rc| - |rs| ==> rc[i].S? && Within(rc[i].known, s.server.table)
  {
    if Ahead(rc, rs, s.toServer, true) && s.toClient == [] {
      assert s.toServer == [];
      AheadEven(rc, rs, true);
    }
  }

  // ------------------------------------------------------------------ whole sessions

  lemma InvStart(files: seq<File>, table: Table)
    ensures Inv(files, Start(files, table), table, files, 2 * |Script(files, table)|)
  {
    hide Script;
  }

  /** The invariant holds in every state of every run. */
  lemma {:induction false} InvRun(files: seq<File>, table0: Table, states: seq<State>)
    returns (table: Table, todo: seq<File>, left: nat)
    requires Run(files, table0, states)
    ensures Inv(files, states[|states| - 1], table, todo, left)
    ensures left + |states| - 1 == 2 * |Script(files, table0)|
    ensures Within(table0, states[|states| - 1].server.table)
  {
    hide Inv, Script, Step;
    if |states| == 1 {
      InvStart(files, table0);
      table, todo, left := table0, files, 2 * |Script(files, table0)|;
    } else {
      var init := states[..|states| - 1];
      RunInit(files, table0, states);
      table, todo, left := InvRun(files, table0, init);
      Learns(init[|init| - 1], states[|states| - 1]);
      table, todo := InvStep(files, init[|init| - 1], states[|states| - 1], table, todo, left);
      left := left - 1;
    }
  }

  /** No step takes anything from what the server knows. */
  lemma Learns(s: State, t: State)
    requires Step(s, t)
    ensures Within(s.server.table, t.server.table)
  {
    hide ClientSend, ClientReceive, CString;
  }

  /** At every moment of every session, the server's recipe of each file that the client has
      finished is the client's own chunk list, and nothing known before was lost. */
  lemma SessionAgrees(files: seq<File>, table: Table, states: seq<State>)
    requires Run(files, table, states)
    ensures var s := states[|states| - 1];
            && DoneFiles(s.client.done) <= files
            && (forall d :: d in s.client.done ==>
                d.file.hash in s.server.table && s.server.table[d.file.hash] == d.list)
            && Within(table, s.server.table)
  {
    hide Script, ClientRest, ServerRest, Linked, DoneFiles, ServerOk, PcOk;
    var t, todo, left := InvRun(files, table, states);
  }

  /** The two sides never both wait: unless both are through, somebody can go on. */
  lemma NoDeadlock(files: seq<File>, table: Table, states: seq<State>)
    requires Run(files, table, states)
    ensures var s := states[|states| - 1];
            (s.client.pc.Finished? && s.server.pc.Closed?) || exists t :: Step(s, t)
  {
    hide Script, ClientRest, ServerRest, ClientSend, ServerSend, ClientReceive, ServerReceive, DoneFiles, Ahead,
         ClientOk, ServerOk;
    var v, todo, left := InvRun(files, table, states);
    var s := states[|states| - 1];
    ClientFollows(s.client, v);
    ServerFollows(s.server, todo);
    var rc, rs := ClientRest(s.client.pc, v), ServerRest(s.server, todo);
    if ClientSend(s.client).Some? {
      assert Step(s,
                  s.(client := ClientSend(s.client).value.1, toServer := s.toServer + [ClientSend(s.client).value.0]));
    } else if ServerSend(s.server).Some? {
      assert Step(s,
                  s.(server := ServerSend(s.server).value.1, toClient := s.toClient + [ServerSend(s.server).value.0]));
    } else {
      BothWait(rc, rs, s);
      if s.toServer != [] {
        assert Step(s, s.(server := ServerReceive(s.server, s.toServer[0]).value, toServer := s.toServer[1..]));
      } else if s.toClient != [] {
        assert Step(s, s.(client := ClientReceive(s.client, s.toClient[0]).value, toClient := s.toClient[1..]));
      }
    }
  }

  /** When neither side's next event is a message of its own, one of the channels holds the
      message that the other side waits for, or the script is over. */
  lemma BothWait(rc: seq<Event>, rs: seq<Event>, s: State)
    requires Linked(rc, rs, s) && (rc == [] || rc[0].S?) && (rs == [] || rs[0].C?)
    ensures s.toServer != [] ==> rs != [] && rs[0].m == s.toServer[0]
    ensures s.toServer == [] && s.toClient != [] ==> rc != [] && rc[0].m == s.toClient[0]
    ensures s.toServer == [] && s.toClient == [] ==> rc == [] && rs == []
  {
  }

  /** A session that can go no further went exactly through its script, both sides ended, no
      message was left over, and the server knows every file with the client's chunk list. */
  lemma SessionCompletes(files: seq<File>, table: Table, states: seq<State>)
    requires Run(files, table, states) && Stuck(states[|states| - 1])
    ensures |states| - 1 == 2 * |Script(files, table)|
    ensures var s := states[|states| - 1];
            && s.client.pc.Finished? && s.server.pc.Closed? && s.toServer == [] && s.toClient == []
            && DoneFiles(s.client.done) == files
            && forall d :: d in s.client.done ==> d.file.hash in s.server.table && s.server.table[d.file.hash] == d.list
  {
    hide Script, Step, ClientSend, ServerSend, ClientReceive, ServerReceive, DoneFiles;
    var v, todo, left := InvRun(files, table, states);
    NoDeadlock(files, table, states);
    SessionAgrees(files, table, states);
  }
}
