/** A database server, the scripts a restore runs on it, and how a call can fail. */
module DatabaseServer {
  type Name = string
  type Row = string

  /** A database: what it holds, whether clients may connect, and its own settings
      and privileges. */
  datatype Database = Database(rows: seq<Row>, open: bool, settings: string)

  const EMPTY := Database([], true, "")

  type Server = map<Name, Database>

  datatype Statement =
    | CloseConnections(db: Name)
    | EndSessions(db: Name)
    | DropIfExists(db: Name)
    | CreateEmpty(db: Name)
    | Rename(db: Name, to: Name)
    | OpenConnections(db: Name)
    | CopyProperties(db: Name, to: Name)

  type Script = seq<Statement>

  // ---- the scripts --------------------------------------------------------------

  function PgDrop(db: Name): Script {
    [CloseConnections(db), EndSessions(db), DropIfExists(db)]
  }

  function MysqlDrop(db: Name): Script {
    [EndSessions(db), DropIfExists(db)]
  }

  function Create(db: Name): Script {
    [CreateEmpty(db)]
  }

  function PgAllow(db: Name): Script {
    [OpenConnections(db)]
  }

  function PgCopyProperties(from: Name, to: Name): Script {
    [CopyProperties(from, to)]
  }

  /** The restored database takes the live one's name, which is dropped first
      when there is one to replace. */
  function PgSwap(restored: Name, db: Name, overwrite: bool): Script {
    (if overwrite then PgDrop(db) else []) + [EndSessions(restored), Rename(restored, db)]
  }

  // ---- running them ---------------------------------------------------------------

  /** Whether the server can carry the statement out at all. */
  predicate Possible(s: Server, st: Statement) {
    match st
    case CreateEmpty(db) => db !in s
    case Rename(db, to) => db in s && to !in s
    case CopyProperties(db, to) => to in s
    case _ => true
  }

  function Effect(s: Server, st: Statement): Server
    requires Possible(s, st)
  {
    match st
    case CloseConnections(db) => if db in s then s[db := s[db].(open := false)] else s
    case OpenConnections(db) => if db in s then s[db := s[db].(open := true)] else s
    case DropIfExists(db) => s - {db}
    case CreateEmpty(db) => s[db := EMPTY]
    case Rename(db, to) => (s - {db})[to := s[db]]
    case EndSessions(_) => s
    case CopyProperties(db, to) => if db in s then s[to := s[to].(settings := s[db].settings)] else s
  }

  /** How a command goes wrong: the server refuses one of its statements, or the
      connection to it is lost after some of them ran, possibly all. */
  datatype Fault = NoFault | Refused(at: nat) | Lost(after: nat)

  datatype Reply = Done | ExitError | TransportError

  /** The first n statements, as far as they are possible, and whether all were. */
  function RunFirst(s: Server, script: Script, n: nat): (Server, bool)
    decreases n
  {
    if n == 0 || script == [] then (s, true)
    else if !Possible(s, script[0]) then (s, false)
    else RunFirst(Effect(s, script[0]), script[1..], n - 1)
  }

  function Exec(s: Server, script: Script, fault: Fault): (Server, Reply) {
    match fault
    case NoFault =>
      var (s', all) := RunFirst(s, script, |script|);
      (s', if all then Done else ExitError)
    case Refused(at) =>
      var (s', all) := RunFirst(s, script, at);
      (s', if all && |script| <= at then Done else ExitError)
    case Lost(after) => (RunFirst(s, script, after).0, TransportError)
  }

  /** How streaming a dump into a database ends. Only `Whole` counts as imported:
      a client that failed, and one that accepted a stream cut short, do not. */
  datatype ImportFault = Whole | ClientFailed(rows: nat) | StreamCut(rows: nat)

  function Import(s: Server, into: Name, dump: seq<Row>, fault: ImportFault): (Server, bool) {
    if into !in s then (s, false) else
    var n := if fault.Whole? || fault.rows > |dump| then |dump| else fault.rows;
    (s[into := s[into].(rows := s[into].rows + dump[..n])], fault.Whole?)
  }

  /** What the metadata query answers: nothing at all if it fails. */
  datatype QueryFault = Answered | NoAnswer

  lemma RunFirstCons(s: Server, st: Statement, rest: Script, n: nat)
    ensures RunFirst(s, [st] + rest, n) ==
            if n == 0 then (s, true) else if !Possible(s, st) then (s, false) else RunFirst(Effect(s, st), rest, n - 1)
  {
    assert ([st] + rest)[1..] == rest;
  }
}
