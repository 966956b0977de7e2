/** server/src/logger/batchLogger.js in its own form: the module's variables, updated by `log`,
    by each half of `flush`, and by `startFlushing` and `stopFlushing`. The table and the
    suspended flush calls, which live in the database and in the JavaScript runtime, are two
    more fields. */
module BatchLogger {
  import opened LoggerSpec
  import LT = LoggerTheorems

  class BatchLogger<T(==)> {
    const BUFFER_MAX_SIZE: int
    var buffer: seq<T>
    var isFlushing: bool
    var flushTimer: bool
    var rows: seq<T>
    var frames: seq<Frame<T>>

    ghost function View(): State<T>
      reads this
    {
      State(rows, frames, buffer, isFlushing, flushTimer)
    }

    /** At most one batch is under way, and `isFlushing` says whether. */
    ghost predicate Valid()
      reads this
    {
      LT.Inv(View())
    }

    /** Everything logged, in order: the table, the batch under way and the buffer. */
    ghost function Entries(): seq<T>
      reads this
    {
      LT.Total(View())
    }

    constructor (maxSize: int)
      ensures Valid() && Entries() == []
      ensures View() == Empty() && BUFFER_MAX_SIZE == maxSize
    {
      BUFFER_MAX_SIZE := maxSize;
      buffer, rows, frames := [], [], [];
      isFlushing, flushTimer := false, false;
    }

    method Log(entry: T)
      requires Valid()
      modifies this
      ensures Valid() && Entries() == old(Entries()) + [entry]
      ensures View() == LogEntry(old(View()), BUFFER_MAX_SIZE, entry)
    {
      LT.StepKeepsTotal(View(), BUFFER_MAX_SIZE, LoggerSpec.Log(entry));
      buffer := buffer + [entry];
      if |buffer| >= BUFFER_MAX_SIZE {
        Flush();
      }
    }

    /** `flush` up to its await. */
    method Flush()
      requires Valid()
      modifies this
      ensures Valid() && Entries() == old(Entries())
      ensures View() == LoggerSpec.Flush(old(View()))
    {
      LT.FlushKeepsTotal(View());
      if isFlushing || buffer == [] {
        return;
      }
      isFlushing := true;
      var batch := buffer;
      buffer := [];
      frames := frames + [Frame(batch, Sent)];
    }

    /** The database commits or refuses the INSERT of a suspended flush. */
    method DecideInsert(i: nat, ok: bool)
      requires Valid() && Enabled(View(), Answer(i, ok))
      modifies this
      ensures Valid() && Entries() == old(Entries())
      ensures View() == Decide(old(View()), i, ok)
    {
      LT.AnswerKeepsTotal(View(), i, ok);
      if ok {
        rows := rows + frames[i].batch;
      }
      frames := frames[i := frames[i].(insert := if ok then Committed else Refused)];
    }

    /** `flush` from its await: the catch block if the INSERT was refused, then finally. */
    method FlushResume(i: nat)
      requires Valid() && Enabled(View(), Resume(i))
      modifies this
      ensures Valid() && Entries() == old(Entries())
      ensures View() == Finish(old(View()), i)
    {
      LT.FinishKeepsTotal(View(), i);
      if frames[i].insert == Refused {
        buffer := frames[i].batch + buffer;
      }
      frames := frames[..i] + frames[i + 1..];
      isFlushing := false;
    }

    method StartFlushing()
      requires Valid()
      modifies this
      ensures Valid() && Entries() == old(Entries())
      ensures View() == Step(old(View()), BUFFER_MAX_SIZE, Start)
    {
      if flushTimer {
        return;
      }
      flushTimer := true;
    }

    /** `stopFlushing` up to the await inside the flush it calls. */
    method StopFlushing()
      requires Valid()
      modifies this
      ensures Valid() && Entries() == old(Entries())
      ensures View() == Step(old(View()), BUFFER_MAX_SIZE, Stop)
    {
      if flushTimer {
        flushTimer := false;
      }
      Flush();
    }
  }
}
