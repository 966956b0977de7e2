/** The batch logger of server/src/logger/batchLogger.js as a state machine. A call of `flush`
    that has sent its INSERT is a frame, suspended until the database answers. */
module LoggerSpec {
  /** The database runs an INSERT entirely or not at all, then tells the suspended flush. */
  datatype Insert = Sent | Committed | Refused

  datatype Frame<+T> = Frame(batch: seq<T>, insert: Insert)

  datatype State<+T> = State(
    rows: seq<T>,             // the table, in insertion order
    frames: seq<Frame<T>>,    // flush calls suspended at their await
    buffer: seq<T>,
    isFlushing: bool,
    timer: bool)

  datatype Event<+T> =
    | Log(entry: T)
    | Tick                    // the interval timer calls flush
    | Start
    | Stop
    | Answer(frame: nat, ok: bool)  // the database decides an INSERT
    | Resume(frame: nat)            // the suspended flush runs to its end

  function Flush<T>(s: State<T>): State<T> {
    if s.isFlushing || s.buffer == [] then s
    else s.(isFlushing := true, frames := s.frames + [Frame(s.buffer, Sent)], buffer := [])
  }

  function LogEntry<T>(s: State<T>, maxSize: int, entry: T): State<T> {
    var t := s.(buffer := s.buffer + [entry]);
    if |t.buffer| >= maxSize then Flush(t) else t
  }

  predicate Enabled<T>(s: State<T>, e: Event<T>) {
    match e
    case Tick => s.timer
    case Answer(i, _) => i < |s.frames| && s.frames[i].insert == Sent
    case Resume(i) => i < |s.frames| && s.frames[i].insert != Sent
    case _ => true
  }

  function Decide<T>(s: State<T>, i: nat, ok: bool): State<T>
    requires i < |s.frames|
  {
    s.(rows := if ok then s.rows + s.frames[i].batch else s.rows,
       frames := s.frames[i := s.frames[i].(insert := if ok then Committed else Refused)])
  }

  /** The rest of `flush`: a refused batch goes back to the front of the buffer. */
  function Finish<T>(s: State<T>, i: nat): State<T>
    requires i < |s.frames|
  {
    s.(buffer := if s.frames[i].insert == Refused then s.frames[i].batch + s.buffer else s.buffer,
       frames := s.frames[..i] + s.frames[i + 1..],
       isFlushing := false)
  }

  function Step<T>(s: State<T>, maxSize: int, e: Event<T>): State<T>
    requires Enabled(s, e)
  {
    match e
    case Log(entry) => LogEntry(s, maxSize, entry)
    case Tick => Flush(s)
    case Start => s.(timer := true)
    case Stop => Flush(s.(timer := false))
    case Answer(i, ok) => Decide(s, i, ok)
    case Resume(i) => Finish(s, i)
  }

  ghost predicate Possible<T>(s: State<T>, maxSize: int, events: seq<Event<T>>)
    decreases |events|
  {
    events == [] || (Enabled(s, events[0]) && Possible(Step(s, maxSize, events[0]), maxSize, events[1..]))
  }

  ghost function After<T>(s: State<T>, maxSize: int, events: seq<Event<T>>): State<T>
    requires Possible(s, maxSize, events)
    decreases |events|
  {
    if events == [] then s else After(Step(s, maxSize, events[0]), maxSize, events[1..])
  }

  /** The entries passed to `log`, in order. */
  function Logged<T>(events: seq<Event<T>>): seq<T> {
    if events == [] then [] else (if events[0].Log? then [events[0].entry] else []) + Logged(events[1..])
  }

  function Empty<T>(): State<T> {
    State([], [], [], false, false)
  }
}
