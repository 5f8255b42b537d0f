/** The executor's own state (app/core/executor.py, `__init__`, append and
    the log attachment at the end of run): a case run by another case's
    executor shares that executor's log, and only the top-level executor
    puts the log into its result. */
module ExecutorState {
  import opened Wrappers
  import opened Json
  import Dicts

  /** The case log: the lines appended so far, each with its `end` flag.
      How `join` renders them is not part of this model. */
  class CaseLog {
    var lines: seq<(string, bool)>

    constructor ()
      ensures lines == []
    {
      lines := [];
    }

    method Append(content: string, end: bool)
      modifies this
      ensures lines == old(lines) + [(content, end)]
    {
      lines := lines + [(content, end)];
    }
  }

  /** `CaseLog.join`: a parameter, since its code is not shown. */
  type Join = seq<(string, bool)> -> string

  class Executor {
    const logger: CaseLog
    /** `_main`: this executor was created without a log to share. */
    const main: bool

    /** `__init__`: without a log, a fresh one and the main flag; with one,
        that same log object and not main. */
    constructor (log: CaseLog?)
      ensures main <==> log == null
      ensures log != null ==> logger == log
      ensures log == null ==> fresh(logger) && logger.lines == []
    {
      if log == null {
        logger := new CaseLog();
        main := true;
      } else {
        logger := log;
        main := false;
      }
    }

    /** append: both branches of the source pass `end` on unchanged. */
    method Append(content: string, end: bool)
      modifies logger
      ensures logger.lines == old(logger.lines) + [(content, end)]
    {
      if end {
        logger.Append(content, end);
      } else {
        logger.Append(content, end);
      }
    }

    /** The end of run, on success and on the exception path alike: the
        main executor stores the joined log under `logs`. */
    function AttachLogs(info: Dicts.Dict<string, JValue>, join: Join): Dicts.Dict<string, JValue>
      reads this, logger
    {
      if main then Dicts.Put(info, "logs", JStr(join(logger.lines))) else info
    }
  }

  /** A main executor's result carries the joined log under `logs` and
      otherwise the same entries; a nested executor's result is left as it
      was. */
  lemma AttachLogsEffect(e: Executor, info: Dicts.Dict<string, JValue>, join: Join, k: string)
    ensures e.main ==> Dicts.Get(e.AttachLogs(info, join), "logs") == Some(JStr(join(e.logger.lines)))
    ensures e.main && k != "logs" ==> Dicts.Get(e.AttachLogs(info, join), k) == Dicts.Get(info, k)
    ensures !e.main ==> e.AttachLogs(info, join) == info
  {
    Dicts.GetPut(info, "logs", JStr(join(e.logger.lines)), k);
    Dicts.GetPut(info, "logs", JStr(join(e.logger.lines)), "logs");
  }

  /** What a nested executor appends lands in its parent's log: the child
      is built on the parent's logger, is not main, and its lines follow
      the parent's. */
  method NestedAppend(parent: Executor, content: string) returns (child: Executor)
    modifies parent.logger
    ensures !child.main && child.logger == parent.logger
    ensures parent.logger.lines == old(parent.logger.lines) + [(content, false)]
  {
    child := new Executor(parent.logger);
    child.Append(content, false);
  }
}
