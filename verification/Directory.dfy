/**
 The channel directory as a state machine over values: what each CPT request does to the list
 of channels, who receives what, and which requests make the server follow a null pointer. Newest
 channel first; the global channel is last.
 */
module Directory {
  import opened Wrappers
  import opened Seqs
  import opened LinkedLists
  import opened Users
  import Commands

  const SUCCESS := 1
  const BAD_CHANNEL := 17
  const FAILURE := 22
  const CHANNEL_ZERO: U16 := 0
  const MAX_NAME_SIZE := 12
  const DEFAULT_USERNAME := "anonymous"
  const ROOT := User(ROOT_ID, "ROOT_USER")

  datatype Chan = Chan(id: U16, users: seq<User>)

  type Dir = seq<Chan>

  /** The state after init_global_channel and init_channel_directory. */
  const INITIAL: Dir := [Chan(CHANNEL_ZERO, [ROOT])]

  function ChanIs(id: int): Chan -> bool {
    (c: Chan) => c.id == id
  }

  function Global(dir: Dir): seq<User>
    requires dir != []
  {
    Last(dir).users
  }

  predicate Member(us: seq<User>, id: int) {
    FirstIndex(us, HasId(id)) < |us|
  }

  function Without(us: seq<User>, id: int): seq<User> {
    RemoveFirst(us, HasId(id))
  }

  function WithGlobal(dir: Dir, us: seq<User>): (r: Dir)
    requires dir != []
    ensures |r| == |dir|
  {
    dir[|dir| - 1 := Last(dir).(users := us)]
  }

  // ---- Requests ----

  /** user_init cuts the descriptor to eight bits; a long name is refused. */
  function Login(dir: Dir, fd: int, name: Option<string>): (Dir, bool)
    requires dir != []
  {
    var name := if name.Some? then name.value else DEFAULT_USERNAME;
    if |name| > MAX_NAME_SIZE || Global(dir) == [] then (dir, false)
    else (WithGlobal(dir, [User(fd % 256, name)] + Global(dir)), true)
  }

  /** The members of a new channel: the users asked for, or else the requester alone. */
  function Invited(dir: Dir, requester: int, query: Option<seq<U16>>): seq<User>
    requires dir != []
    requires MayCreate(dir, requester, query)
  {
    var us := if query.Some? then Filtered(Global(dir), query.value) else [];
    if us == [] then [Global(dir)[FirstIndex(Global(dir), HasId(requester))]] else us
  }

  /** Where create does not follow a null pointer. */
  predicate MayCreate(dir: Dir, requester: int, query: Option<seq<U16>>)
    requires dir != []
  {
    && (query.Some? ==> Filterable(|Global(dir)|, |query.value|))
    && (query.None? || Filtered(Global(dir), query.value) == [] ==> Member(Global(dir), requester))
  }

  /** The new channel's id is the directory length, as a 16-bit number. */
  function Create(dir: Dir, requester: int, query: Option<seq<U16>>): Dir
    requires dir != [] && MayCreate(dir, requester, query)
  {
    [Chan(|dir| % 65536, Invited(dir, requester, query))] + dir
  }

  /** What create_channel_event reports to the creator. */
  function ReportedId(dir: Dir): U16 {
    (|dir| - 1) % 65536
  }

  function Join(dir: Dir, id: int, chan: U16): (Dir, int)
    requires dir != []
  {
    var k := FirstIndex(dir, ChanIs(chan));
    if k == |dir| then (dir, FAILURE)
    else if Member(dir[k].users, id) then (dir, SUCCESS)
    else if Member(Global(dir), id) then
      var user := Global(dir)[FirstIndex(Global(dir), HasId(id))];
      (dir[k := dir[k].(users := [user] + dir[k].users)], SUCCESS)
    else (dir, FAILURE)
  }

  function Leave(dir: Dir, id: int, chan: U16): (Dir, int) {
    var k := FirstIndex(dir, ChanIs(chan));
    if chan == CHANNEL_ZERO then (dir, BAD_CHANNEL)
    else if k == |dir| || !Member(dir[k].users, id) then (dir, FAILURE)
    else
      var dir' := dir[k := dir[k].(users := Without(dir[k].users, id))];
      (if dir'[k].users == [] then RemoveFirst(dir', ChanIs(chan)) else dir', SUCCESS)
  }

  /**
   One turn of the loop of cpt_logout_response: what precedes the iterator once it has passed
   c. An emptied channel is deleted *by id*, so the first channel with that id goes.
   */
  function Turned(done: Dir, c: Chan, id: int): Dir {
    if c.id == CHANNEL_ZERO then
      done + [c]
    else
      var c' := c.(users := Without(c.users, id));
      if c'.users == [] then RemoveFirst(done + [c'], ChanIs(c.id)) else done + [c']
  }

  /** The loop: `done` is what precedes the iterator by now, `rest` starts at the iterator. */
  function LogoutLoop(done: Dir, rest: Dir, id: int): Dir
    decreases rest
  {
    if rest == [] then done else LogoutLoop(Turned(done, rest[0], id), rest[1..], id)
  }

  function Logout(dir: Dir, id: int): (Dir, int)
    requires dir != []
  {
    var dir' := if |dir| == 1 then dir else LogoutLoop([], dir, id);
    if dir' == [] then (dir', FAILURE)
    else (WithGlobal(dir', Without(Global(dir'), id)), if Member(Global(dir'), id) then SUCCESS else FAILURE)
  }

  /** Everyone in the channel but the root user and the sender, in list order. */
  function Receivers(us: seq<User>, sender: int): seq<U16> {
    if us == [] then []
    else (if us[0].id != ROOT_ID && us[0].id != sender then [us[0].id] else []) + Receivers(us[1..], sender)
  }

  function Deliveries(dir: Dir, sender: int, chan: U16): seq<U16> {
    var k := FirstIndex(dir, ChanIs(chan));
    if k == |dir| then [] else Receivers(dir[k].users, sender)
  }

  /** Whom GET_USERS names, in list order, and its result. */
  function Listing(dir: Dir, chan: U16): (seq<User>, int) {
    var k := FirstIndex(dir, ChanIs(chan));
    if k == |dir| then ([], BAD_CHANNEL) else (dir[k].users, SUCCESS)
  }

  // ---- Events ----

  datatype Event =
    | Accept(fd: int, name: Option<string>)
    | CreateChannel(from: int, query: Option<seq<U16>>)
    | JoinChannel(from: int, chan: U16)
    | LeaveChannel(from: int, chan: U16)
    | LogoutRequest(from: int)
    | Send(from: int, chan: U16)
    | GetUsers(from: int, chan: U16)
    | Other(from: int)   // a command that is not dispatched
    | Hangup(from: int)  // the peer closed without LOGOUT: the directory is left as it is

  /** Where create follows a null pointer (see Faults) the directory stays as it is. A directory is
      never empty; the first line only makes the function total. */
  function Step(dir: Dir, e: Event): Dir {
    if dir == [] then dir else
      match e
      case Accept(fd, name) => Login(dir, fd, name).0
      case CreateChannel(from, query) => if MayCreate(dir, from, query) then Create(dir, from, query) else dir
      case JoinChannel(from, chan) => Join(dir, from, chan).0
      case LeaveChannel(from, chan) => Leave(dir, from, chan).0
      case LogoutRequest(from) => Logout(dir, from).0
      case _ => dir
  }

  function Sent(dir: Dir, e: Event): seq<U16> {
    if e.Send? then Deliveries(dir, e.from, e.chan) else []
  }

  // ---- Where the source follows a null pointer ----

  /** Leave and logout delete from user lists that delete_node cannot always handle. */
  predicate Unsafe(us: seq<User>, id: int) {
    Undeletable(us, HasId(id))
  }

  predicate LeaveFaults(dir: Dir, id: int, chan: U16) {
    var k := FirstIndex(dir, ChanIs(chan));
    chan != CHANNEL_ZERO && k < |dir| && Unsafe(dir[k].users, id)
  }

  predicate TurnFaults(c: Chan, id: int) {
    c.id != CHANNEL_ZERO && Unsafe(c.users, id)
  }

  /** Some turn of the logout loop faults. */
  predicate LoopFaults(rest: Dir, id: int) {
    rest != [] && (TurnFaults(rest[0], id) || LoopFaults(rest[1..], id))
  }

  predicate LogoutFaults(dir: Dir, id: int)
    requires dir != []
  {
    var dir' := if |dir| == 1 then dir else LogoutLoop([], dir, id);
    (|dir| > 1 && LoopFaults(dir, id)) || (dir' != [] && Unsafe(Global(dir'), id))
  }

  /** GET_USERS reads the first user of the channel it finds. */
  predicate GetUsersFaults(dir: Dir, chan: U16) {
    var k := FirstIndex(dir, ChanIs(chan));
    k < |dir| && dir[k].users == []
  }

  /** The event makes the server follow a null pointer. */
  predicate Faults(dir: Dir, e: Event) {
    dir != [] &&
    match e
    case CreateChannel(from, query) => !MayCreate(dir, from, query)
    case LeaveChannel(from, chan) => LeaveFaults(dir, from, chan)
    case LogoutRequest(from) => LogoutFaults(dir, from)
    case GetUsers(_, chan) => GetUsersFaults(dir, chan)
    case _ => false
  }

  /** The directory that results, or nothing where the server faults on the way. */
  function Unless(fault: bool, dir: Dir): Option<Dir> {
    if fault then None else Some(dir)
  }

  function LoopOutcome(dir: Dir, id: int): Option<Dir> {
    Unless(LoopFaults(dir, id), LogoutLoop([], dir, id))
  }

  function LeaveOutcome(dir: Dir, id: int, chan: U16): Option<Dir> {
    Unless(LeaveFaults(dir, id, chan), Leave(dir, id, chan).0)
  }

  function LogoutOutcome(dir: Dir, id: int): Option<Dir>
    requires dir != []
  {
    Unless(LogoutFaults(dir, id), Logout(dir, id).0)
  }

  function Outcome(dir: Dir, e: Event): Option<Dir> {
    Unless(Faults(dir, e), Step(dir, e))
  }

  // ---- Requests as they arrive ----

  /** The event a request from a connected user stands for. */
  function Request(from: int, command: int, chan: U16, query: Option<seq<U16>>): Event {
    if command == Commands.SEND then Send(from, chan)
    else if command == Commands.LOGOUT then LogoutRequest(from)
    else if command == Commands.CREATE_CHANNEL then CreateChannel(from, query)
    else if command == Commands.JOIN_CHANNEL then JoinChannel(from, chan)
    else if command == Commands.LEAVE_CHANNEL then LeaveChannel(from, chan)
    else if command == Commands.GET_USERS then GetUsers(from, chan)
    else Other(from)
  }
}
