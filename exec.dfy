/** The command runner the controller shells out to (`child_process.exec`),
    reduced to what the controller observes of it. */
module Exec {

  /** What an `exec` callback receives: no error and the captured stdout, or
      an error with its message together with whatever stdout was captured
      (a command that exits non-zero may still have printed something). */
  datatype ExecOutcome = Ok(stdout: string) | Err(message: string, stdout: string)

  /** The operating system as the controller sees it. `respond` fixes the
      outcome of every command line; `log` records, in order, every command
      line that has been issued, so that "no command is issued" can be
      stated. */
  class Shell {
    ghost var log: seq<string>
    const respond: string -> ExecOutcome

    constructor (respond: string -> ExecOutcome)
      ensures this.respond == respond && log == []
    {
      this.respond := respond;
      log := [];
    }

    /** Runs one command line to completion. */
    method Exec(command: string) returns (o: ExecOutcome)
      modifies this
      ensures o == respond(command)
      ensures log == old(log) + [command]
    {
      o := respond(command);
      log := log + [command];
    }
  }
}
