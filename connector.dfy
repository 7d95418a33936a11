/** The connector the collectors talk to: an already-connected SSH or WinRM
    session, seen only through `run_command`. */
module Remote {

  /** A connected session. `respond` is what the remote host prints for each
      command string, already as the text `run_command` returns; `log` is
      every command issued so far, oldest first. */
  class Connector {
    const respond: string -> string
    ghost var log: seq<string>

    constructor (respond: string -> string)
      ensures this.respond == respond && log == []
    {
      this.respond := respond;
      log := [];
    }

    /** `connector.run_command(command)`. */
    method RunCommand(command: string) returns (output: string)
      modifies this
      ensures output == respond(command)
      ensures log == old(log) + [command]
    {
      output := respond(command);
      log := log + [command];
    }
  }
}
