/**
 The BSSCI command table: one row a command, indexed at startup by a loop that
 refuses a table whose rows contradict each other or the protocol directions.
 */
module CommandRegistry {
  import opened Codec
  import opened Wrappers

  datatype Role = Unset | ServiceCenterOnly | Handshake | Opens | Closes | Responds | ErrorExchange

  datatype Direction = BStoSC | SCtoBS | Bidirectional

  /** How a persisted operation's message is repaired before it is sent again. */
  type Normalizer = Message -> Message

  /** A row; compensates tells whether an errored operation of the command undoes its domain effect. */
  datatype CommandSpec = CommandSpec(command: string, role: Role, normalizer: Option<Normalizer>, resumable: bool, compensates: bool)

  datatype Fault = DuplicateRow(command: string) | UnknownDirection(command: string) | RoleRefused(command: string)

  /** A row without a role is refused, and so is one whose role and direction disagree on who sends the command. */
  predicate Admits(role: Role, direction: Direction) {
    role != Unset && (role == ServiceCenterOnly <==> direction == SCtoBS)
  }

  /** Row i is acceptable after the rows before it. */
  predicate RowFits(table: seq<CommandSpec>, directions: map<string, Direction>, i: nat)
    requires i < |table|
  {
    && (forall j | 0 <= j < i :: table[j].command != table[i].command)
    && table[i].command in directions
    && Admits(table[i].role, directions[table[i].command])
  }

  function RowFault(table: seq<CommandSpec>, directions: map<string, Direction>, i: nat): Fault
    requires i < |table| && !RowFits(table, directions, i)
  {
    var command := table[i].command;
    if exists j | 0 <= j < i :: table[j].command == command then DuplicateRow(command)
    else if command !in directions then UnknownDirection(command)
    else RoleRefused(command)
  }

  /** A table newCommandRegistry accepts: distinct commands, known directions, fitting roles. */
  predicate Accepted(table: seq<CommandSpec>, directions: map<string, Direction>) {
    forall i | 0 <= i < |table| :: RowFits(table, directions, i)
  }

  datatype Registry = Registry(byCommand: map<string, CommandSpec>, directions: map<string, Direction>)

  /** The registry indexes exactly the rows of the table. */
  ghost predicate Indexes(r: Registry, table: seq<CommandSpec>, directions: map<string, Direction>) {
    && r.directions == directions
    && (forall command :: command in r.byCommand <==> exists i | 0 <= i < |table| :: table[i].command == command)
    && (forall i | 0 <= i < |table| :: table[i].command in r.byCommand && r.byCommand[table[i].command] == table[i])
  }

  /** Indexes an acceptable table; refuses any other with the fault of its first row that does not fit. */
  method NewCommandRegistry(table: seq<CommandSpec>, directions: map<string, Direction>)
    returns (result: Result<Registry, Fault>)
    ensures result.Success? <==> Accepted(table, directions)
    ensures result.Success? ==> Indexes(result.value, table, directions)
    ensures result.Failure? ==> exists i | 0 <= i < |table| ::
                && !RowFits(table, directions, i) && result.fault == RowFault(table, directions, i)
                && forall j | 0 <= j < i :: RowFits(table, directions, j)
  {
    var byCommand: map<string, CommandSpec> := map[];
    for i := 0 to |table|
      invariant forall j | 0 <= j < i :: RowFits(table, directions, j)
      invariant Indexes(Registry(byCommand, directions), table[..i], directions)
    {
      var spec := table[i];
      if spec.command in byCommand {
        assert !RowFits(table, directions, i);
        return Failure(DuplicateRow(spec.command));
      }
      if spec.command !in directions {
        assert !RowFits(table, directions, i);
        return Failure(UnknownDirection(spec.command));
      }
      if !Admits(spec.role, directions[spec.command]) {
        assert !RowFits(table, directions, i);
        return Failure(RoleRefused(spec.command));
      }
      byCommand := byCommand[spec.command := spec];
      assert table[..i + 1] == table[..i] + [spec];
    }
    assert table[..|table|] == table;
    return Success(Registry(byCommand, directions));
  }

  /** Whether a persisted operation is sent again after a session resume. */
  predicate Resumable(r: Registry, opId: int, command: string) {
    opId < 0 && command in r.byCommand && r.byCommand[command].resumable
  }

  /** Whether an errored operation of the command undoes its domain effect. */
  predicate Compensates(r: Registry, command: string) {
    command in r.byCommand && r.byCommand[command].compensates
  }

  /** The message as it is sent again. */
  function Repaired(r: Registry, msg: Message, command: string, beyond: real -> int): Message {
    if command in r.byCommand && r.byCommand[command].normalizer.Some?
    then r.byCommand[command].normalizer.value(msg)
    else WithIntegerOpId(msg, beyond)
  }

  /**
   A table is accepted exactly when its commands are distinct and have a direction, every
   row has a role, and the service center's commands are those it alone sends.
   */
  lemma AcceptedExactlyWhen(table: seq<CommandSpec>, directions: map<string, Direction>)
    ensures Accepted(table, directions) <==>
            && (forall i, j | 0 <= i < j < |table| :: table[i].command != table[j].command)
            && (forall spec <- table :: spec.command in directions && !spec.role.Unset?
                                        && (spec.role.ServiceCenterOnly? <==> directions[spec.command].SCtoBS?))
  {
    if Accepted(table, directions) {
      forall i, j | 0 <= i < j < |table| ensures table[i].command != table[j].command {
        assert RowFits(table, directions, j);
      }
      forall spec | spec in table
        ensures spec.command in directions && !spec.role.Unset? && (spec.role.ServiceCenterOnly? <==> directions[spec.command].SCtoBS?)
      {
        var i :| 0 <= i < |table| && table[i] == spec;
        assert RowFits(table, directions, i);
      }
    }
  }

  /** The first row that does not fit is refused as a duplicate, for its direction, or for its role, in that order. */
  lemma RefusedRowNamesItsFault(table: seq<CommandSpec>, directions: map<string, Direction>, i: nat)
    requires i < |table| && !RowFits(table, directions, i)
    ensures var command, fault := table[i].command, RowFault(table, directions, i);
            && fault.command == command
            && (fault.DuplicateRow? <==> exists j | 0 <= j < i :: table[j].command == command)
            && (fault.RoleRefused? ==> command in directions)
            && (fault.UnknownDirection? ==> command !in directions)
  {
  }

  /** In the registry of an accepted table a command is resumed exactly when its row says so and the operation is the service center's. */
  lemma ResumableMeansTheRowSaysSo(r: Registry, table: seq<CommandSpec>, directions: map<string, Direction>, opId: int, command: string)
    requires Indexes(r, table, directions)
    ensures Resumable(r, opId, command) <==>
            opId < 0 && exists i | 0 <= i < |table| :: table[i].command == command && table[i].resumable
  {
  }

  /** Registries of the same accepted table agree, in whatever order its rows were listed. */
  lemma RegistryIsUnique(r: Registry, s: Registry, t: seq<CommandSpec>, u: seq<CommandSpec>, directions: map<string, Direction>)
    requires Indexes(r, t, directions) && Indexes(s, u, directions)
    requires multiset(t) == multiset(u)
    ensures r == s
  {
    forall spec ensures spec in t <==> spec in u {
      assert spec in t <==> spec in multiset(t);
    }
    forall command
      ensures command in r.byCommand <==> command in s.byCommand
      ensures command in r.byCommand ==> r.byCommand[command] == s.byCommand[command]
    {
      if command in r.byCommand {
        var i :| 0 <= i < |t| && t[i].command == command;
        assert t[i] in u;
      }
      if command in s.byCommand {
        var i :| 0 <= i < |u| && u[i].command == command;
        assert u[i] in t;
      }
    }
    assert r.byCommand == s.byCommand;
  }
}
