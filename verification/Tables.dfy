/** The transactional runtime: one transaction per command over the relational tables, with their
    keys, and its relation to the in-memory runtime. */
module Tables {
  import opened Wrappers
  import opened Bytes
  import opened Balances

  const I64_LIMIT: int := 0x8000_0000_0000_0000 // 2^63

  datatype Marker = Marker(account: Account, asset: Asset, amount: Amount, resultingRoot: Root)

  datatype TransferMarker = TransferMarker(from: Account, to: Account, asset: Asset, amount: Amount,
      resultingRoot: Root)

  datatype Kind = DepositKind | WithdrawalKind

  // A row of the transition log. Its operation id is unique over both kinds.
  datatype TransitionRow = TransitionRow(kind: Kind, id: Id, account: Account, asset: Asset, amount: Amount,
      oldRoot: Root, newRoot: Root, dataId: Root, transcript: Root, version: nat)

  datatype Database = Database(
    root: Root,
    records: map<Key, Record>,
    deposits: map<Id, Marker>,
    nullifiers: map<Id, Marker>,
    transfers: map<Id, TransferMarker>,
    transitions: seq<TransitionRow>)

  function EmptyDatabase(): (t: Database) { Database(ZeroRoot(), map[], map[], map[], map[], []) }

  predicate Logged(rows: seq<TransitionRow>, id: Id) { exists i :: 0 <= i < |rows| && rows[i].id == id }

  // Upsert of the record, insert of the marker, update of the root, insert into the log; any
  // violated key undoes all of it.
  function PersistTransition(t: Database, kind: Kind, c: Command, d: Derived): (r: Result<Database, RuntimeError>) {
    if d.record.version >= I64_LIMIT then Err(CorruptPersistence)
    else
      var markers := if kind == DepositKind then t.deposits else t.nullifiers;
      if c.id in markers then Err(PersistenceFailure)
      else if Logged(t.transitions, c.id) then Err(PersistenceFailure)
      else
        var row := TransitionRow(kind, c.id, c.account, c.asset, c.amount, t.root, d.newRoot, d.record.dataId,
            d.transcript, d.record.version);
        var marker := Marker(c.account, c.asset, c.amount, d.newRoot);
        Ok(Database(d.newRoot, t.records[(c.account, c.asset) := d.record],
                    if kind == DepositKind then t.deposits[c.id := marker] else t.deposits,
                    if kind == DepositKind then t.nullifiers else t.nullifiers[c.id := marker],
                    t.transfers, t.transitions + [row]))
  }

  function PgDeposit(k: Crypto, t: Database, c: Command): (r: Result<(Transition, Database), RuntimeError>)
    requires c.Deposit?
  {
    if c.amount == 0 then Err(InvalidAmount)
    else if t.root != c.expectedRoot then Err(StaleStateRoot)
    else if c.id in t.deposits then Err(DepositAlreadyProcessed)
    else
      var key := (c.account, c.asset);
      var next :- CreditedCell(k, t.records, key, c.amount);
      var d := NextRecord(k, t.root, key, next.0, next.1);
      var after :- PersistTransition(t, DepositKind, c, d);
      Ok((Transition(d.newRoot, d.record.dataId, d.transcript, next.1, None), after))
  }

  function PgWithdrawal(k: Crypto, t: Database, c: Command): (r: Result<(Transition, Database), RuntimeError>)
    requires c.Withdrawal?
  {
    if c.amount == 0 then Err(InvalidAmount)
    else if t.root != c.expectedRoot then Err(StaleStateRoot)
    else if c.id in t.nullifiers then Err(NullifierAlreadySpent)
    else
      var key := (c.account, c.asset);
      var next :- DebitedCell(k, t.records, key, c.amount);
      var d := NextRecord(k, t.root, key, next.0, next.1);
      var after :- PersistTransition(t, WithdrawalKind, c, d);
      Ok((Transition(d.newRoot, d.record.dataId, d.transcript, next.1, None), after))
  }

  // Transfers write two records and a transfer marker, and nothing to the transition log.
  function PgTransfer(k: Crypto, t: Database, c: Command): (r: Result<(Transition, Database), RuntimeError>)
    requires c.Transfer?
  {
    if c.amount == 0 || c.account == c.receiver then Err(InvalidAmount)
    else if t.root != c.expectedRoot then Err(StaleStateRoot)
    else if c.id in t.transfers then Err(NullifierAlreadySpent)
    else
      var from, to := (c.account, c.asset), (c.receiver, c.asset);
      var p :- TransferredCells(k, t.records, from, to, c.amount);
      var d := TransferDerived(k, t.root, from, to, p);
      if p.fromVersion >= I64_LIMIT || p.toVersion >= I64_LIMIT then Err(CorruptPersistence)
      else
        Ok((TransferReport(p, d),
            t.(root := d.1.newRoot, records := t.records[from := d.0.record][to := d.1.record],
               transfers := t.transfers[c.id := TransferMarker(c.account, c.receiver, c.asset, c.amount,
                   d.1.newRoot)])))
  }

  function PgApply(k: Crypto, t: Database, c: Command): (r: Result<(Transition, Database), RuntimeError>) {
    match c
    case Deposit(_, _, _, _, _) => PgDeposit(k, t, c)
    case Withdrawal(_, _, _, _, _) => PgWithdrawal(k, t, c)
    case Transfer(_, _, _, _, _, _) => PgTransfer(k, t, c)
  }

  function PgStep(k: Crypto, t: Database, c: Command): (u: Database) {
    match PgApply(k, t, c)
    case Ok(r) => r.1
    case Err(_) => t
  }

  function PgRun(k: Crypto, t: Database, commands: seq<Command>): (u: Database)
    decreases |commands|
  {
    if commands == [] then t else PgStep(k, PgRun(k, t, commands[..|commands| - 1]), commands[|commands| - 1])
  }

  function PgReport(r: Result<(Transition, Database), RuntimeError>): (t: Result<Transition, RuntimeError>) {
    match r
    case Ok(p) => Ok(p.0)
    case Err(e) => Err(e)
  }

  // ---- the tables, changed statement by statement inside a transaction ----

  class PostgresBalanceRuntime {
    const crypto: Crypto
    var root: Root
    var records: map<Key, Record>
    var deposits: map<Id, Marker>
    var nullifiers: map<Id, Marker>
    var transfers: map<Id, TransferMarker>
    var transitions: seq<TransitionRow>

    function Contents(): (t: Database)
      reads this
    {
      Database(root, records, deposits, nullifiers, transfers, transitions)
    }

    constructor (crypto: Crypto)
      ensures this.crypto == crypto && Contents() == EmptyDatabase()
    {
      this.crypto, root, records := crypto, ZeroRoot(), map[];
      deposits, nullifiers, transfers, transitions := map[], map[], map[], [];
    }

    method Rollback(t: Database)
      modifies this
      ensures Contents() == t
    {
      root, records, deposits, nullifiers, transfers, transitions := t.root, t.records, t.deposits, t.nullifiers,
          t.transfers, t.transitions;
    }

    // The statements of a deposit or withdrawal in their order; a failing one leaves the tables
    // as the statements before it made them.
    method Persist(kind: Kind, c: Command, d: Derived) returns (r: Result<(), RuntimeError>)
      modifies this
      ensures match PersistTransition(old(Contents()), kind, c, d)
              case Ok(after) => r == Ok(()) && Contents() == after
              case Err(e) => r == Err(e)
    {
      if d.record.version >= I64_LIMIT { return Err(CorruptPersistence); }
      var oldRoot := root;
      records := records[(c.account, c.asset) := d.record];
      var marker := Marker(c.account, c.asset, c.amount, d.newRoot);
      if kind == DepositKind {
        if c.id in deposits { return Err(PersistenceFailure); }
        deposits := deposits[c.id := marker];
      } else {
        if c.id in nullifiers { return Err(PersistenceFailure); }
        nullifiers := nullifiers[c.id := marker];
      }
      root := d.newRoot;
      if Logged(transitions, c.id) { return Err(PersistenceFailure); }
      transitions := transitions + [TransitionRow(kind, c.id, c.account, c.asset, c.amount, oldRoot, d.newRoot,
          d.record.dataId, d.transcript, d.record.version)];
      return Ok(());
    }

    method Credit(c: Command) returns (r: Result<Transition, RuntimeError>)
      requires c.Deposit?
      modifies this
      ensures r == PgReport(PgDeposit(crypto, old(Contents()), c)) && Contents() == PgStep(crypto, old(Contents()), c)
    {
      hide PersistTransition;
      if c.amount == 0 { return Err(InvalidAmount); }
      var start := Contents();
      if root != c.expectedRoot { return Err(StaleStateRoot); }
      if c.id in deposits { return Err(DepositAlreadyProcessed); }
      var key := (c.account, c.asset);
      var next := CreditedCell(crypto, records, key, c.amount);
      if next.Err? { return Err(next.error); }
      var d := NextRecord(crypto, root, key, next.value.0, next.value.1);
      var saved := Persist(DepositKind, c, d);
      if saved.Err? {
        Rollback(start);
        return Err(saved.error);
      }
      return Ok(Transition(d.newRoot, d.record.dataId, d.transcript, next.value.1, None));
    }

    method Debit(c: Command) returns (r: Result<Transition, RuntimeError>)
      requires c.Withdrawal?
      modifies this
      ensures r == PgReport(PgWithdrawal(crypto, old(Contents()), c))
          && Contents() == PgStep(crypto, old(Contents()), c)
    {
      hide PersistTransition;
      if c.amount == 0 { return Err(InvalidAmount); }
      var start := Contents();
      if root != c.expectedRoot { return Err(StaleStateRoot); }
      if c.id in nullifiers { return Err(NullifierAlreadySpent); }
      var key := (c.account, c.asset);
      var next := DebitedCell(crypto, records, key, c.amount);
      if next.Err? { return Err(next.error); }
      var d := NextRecord(crypto, root, key, next.value.0, next.value.1);
      var saved := Persist(WithdrawalKind, c, d);
      if saved.Err? {
        Rollback(start);
        return Err(saved.error);
      }
      return Ok(Transition(d.newRoot, d.record.dataId, d.transcript, next.value.1, None));
    }

    method Move(c: Command) returns (r: Result<Transition, RuntimeError>)
      requires c.Transfer?
      modifies this
      ensures r == PgReport(PgTransfer(crypto, old(Contents()), c)) && Contents() == PgStep(crypto, old(Contents()), c)
    {
      if c.amount == 0 || c.account == c.receiver { return Err(InvalidAmount); }
      var start := Contents();
      if root != c.expectedRoot { return Err(StaleStateRoot); }
      if c.id in transfers { return Err(NullifierAlreadySpent); }
      var from, to := (c.account, c.asset), (c.receiver, c.asset);
      var p := TransferredCells(crypto, records, from, to, c.amount);
      if p.Err? { return Err(p.error); }
      var d := TransferDerived(crypto, root, from, to, p.value);
      if p.value.fromVersion >= I64_LIMIT { return Err(CorruptPersistence); }
      records := records[from := d.0.record];
      if p.value.toVersion >= I64_LIMIT {
        Rollback(start);
        return Err(CorruptPersistence);
      }
      records := records[to := d.1.record];
      transfers := transfers[c.id := TransferMarker(c.account, c.receiver, c.asset, c.amount, d.1.newRoot)];
      root := d.1.newRoot;
      return Ok(TransferReport(p.value, d));
    }
  }

  // ---- refinement ----

  // The same root, records and replay markers.
  ghost predicate Rel(s: State, t: Database) {
    && s.root == t.root && s.cells == t.records
    && s.deposits == t.deposits.Keys && s.nullifiers == t.nullifiers.Keys && s.transfers == t.transfers.Keys
  }

  // The log names exactly the accepted deposits and withdrawals.
  ghost predicate LogInv(t: Database) {
    forall id :: Logged(t.transitions, id) <==> id in t.deposits || id in t.nullifiers
  }

  // The versions an accepted command writes.
  function TopVersion(r: Transition): (v: nat) {
    if r.second.Some? && r.second.value.1 > r.version then r.second.value.1 else r.version
  }

  // The one id clash the tables see and the sets do not: the log keys deposits and withdrawals
  // together, while the sets keep them apart.
  predicate CrossKindClash(s: State, c: Command) {
    (c.Deposit? && c.id in s.nullifiers) || (c.Withdrawal? && c.id in s.deposits)
  }

  function Expected(s: State, c: Command,
      r: Result<(Transition, State), RuntimeError>): (e: Result<Transition, RuntimeError>)
  {
    if r.Err? then Err(r.error)
    else if TopVersion(r.value.0) >= I64_LIMIT then Err(CorruptPersistence)
    else if CrossKindClash(s, c) then Err(PersistenceFailure)
    else Ok(r.value.0)
  }

  lemma AppendLogged(rows: seq<TransitionRow>, row: TransitionRow, id: Id)
    ensures Logged(rows + [row], id) <==> Logged(rows, id) || row.id == id
  {
    if Logged(rows, id) {
      var i :| 0 <= i < |rows| && rows[i].id == id;
      assert (rows + [row])[i].id == id;
    }
    if row.id == id {
      assert (rows + [row])[|rows|].id == id;
    }
  }

  lemma StepDeposit(k: Crypto, s: State, t: Database, c: Command)
    requires c.Deposit? && Rel(s, t) && LogInv(t)
    ensures PgReport(PgDeposit(k, t, c)) == Expected(s, c, CreditDeposit(k, s, c))
    ensures PgDeposit(k, t, c).Ok?
        ==> Rel(CreditDeposit(k, s, c).value.1, PgDeposit(k, t, c).value.1) && LogInv(PgDeposit(k, t, c).value.1)
  {
    hide CreditedCell, NextRecord, Logged;
    if PgDeposit(k, t, c).Ok? {
      var after := PgDeposit(k, t, c).value.1;
      forall id ensures Logged(after.transitions, id) <==> id in after.deposits || id in after.nullifiers {
        AppendLogged(t.transitions, after.transitions[|t.transitions|], id);
      }
    }
    VersionKept(k, s.root, (c.account, c.asset), CreditedCell(k, s.cells, (c.account, c.asset), c.amount));
  }

  lemma VersionKept(k: Crypto, root: Root, key: Key, next: Result<(seq<Byte>, nat), RuntimeError>)
    ensures next.Ok? ==> NextRecord(k, root, key, next.value.0, next.value.1).record.version == next.value.1
  {
  }

  lemma StepWithdrawal(k: Crypto, s: State, t: Database, c: Command)
    requires c.Withdrawal? && Rel(s, t) && LogInv(t)
    ensures PgReport(PgWithdrawal(k, t, c)) == Expected(s, c, DebitWithdrawal(k, s, c))
    ensures PgWithdrawal(k, t, c).Ok? ==>
        Rel(DebitWithdrawal(k, s, c).value.1, PgWithdrawal(k, t, c).value.1)
        && LogInv(PgWithdrawal(k, t, c).value.1)
  {
    hide DebitedCell, NextRecord, Logged;
    if PgWithdrawal(k, t, c).Ok? {
      var after := PgWithdrawal(k, t, c).value.1;
      forall id ensures Logged(after.transitions, id) <==> id in after.deposits || id in after.nullifiers {
        AppendLogged(t.transitions, after.transitions[|t.transitions|], id);
      }
    }
    VersionKept(k, s.root, (c.account, c.asset), DebitedCell(k, s.cells, (c.account, c.asset), c.amount));
  }

  lemma StepTransfer(k: Crypto, s: State, t: Database, c: Command)
    requires c.Transfer? && Rel(s, t) && LogInv(t)
    ensures PgReport(PgTransfer(k, t, c)) == Expected(s, c, MoveBalance(k, s, c))
    ensures PgTransfer(k, t, c).Ok?
        ==> Rel(MoveBalance(k, s, c).value.1, PgTransfer(k, t, c).value.1) && LogInv(PgTransfer(k, t, c).value.1)
  {
    hide TransferredCells, TransferDerived, Logged;
  }

  // From related states every command gets the in-memory answer, except that a version beyond
  // 63 bits and an id already used by the other kind are refused, with everything rolled back.
  lemma StepRefines(k: Crypto, s: State, t: Database, c: Command)
    requires Rel(s, t) && LogInv(t)
    ensures PgReport(PgApply(k, t, c)) == Expected(s, c, Apply(k, s, c))
    ensures PgApply(k, t, c).Err? ==> PgStep(k, t, c) == t
    ensures LogInv(PgStep(k, t, c))
    ensures PgReport(PgApply(k, t, c)) == Report(Apply(k, s, c)) ==> Rel(Step(k, s, c), PgStep(k, t, c))
  {
    hide CreditDeposit, DebitWithdrawal, MoveBalance, PgDeposit, PgWithdrawal, PgTransfer, LogInv, Rel, Expected;
    match c
    case Deposit(_, _, _, _, _) => StepDeposit(k, s, t, c);
    case Withdrawal(_, _, _, _, _) => StepWithdrawal(k, s, t, c);
    case Transfer(_, _, _, _, _, _) => StepTransfer(k, s, t, c);
    Reported(s, c, Apply(k, s, c));
    if PgReport(PgApply(k, t, c)) == Report(Apply(k, s, c)) && Apply(k, s, c).Ok? {
      assert PgApply(k, t, c).Ok?;
    }
  }

  lemma Reported(s: State, c: Command, r: Result<(Transition, State), RuntimeError>)
    ensures Expected(s, c, r) == Report(r) <==> !Exceptional(s, c, r)
  {
  }

  // The commands on which the two runtimes part.
  predicate Exceptional(s: State, c: Command, r: Result<(Transition, State), RuntimeError>) {
    r.Ok? && (TopVersion(r.value.0) >= I64_LIMIT || CrossKindClash(s, c))
  }

  // No command of the sequence is exceptional in the state it meets.
  ghost predicate Unexceptional(k: Crypto, s: State, commands: seq<Command>) {
    forall i {:trigger commands[i]} :: 0 <= i < |commands| ==>
      var before := RunCommands(k, s, commands[..i]);
      !Exceptional(before, commands[i], Apply(k, before, commands[i]))
  }

  // Over every sequence without an exceptional command the runtimes give the same answers and
  // stay related.
  lemma {:induction false} RunsRefine(k: Crypto, s: State, t: Database, commands: seq<Command>)
    requires Rel(s, t) && LogInv(t) && Unexceptional(k, s, commands)
    ensures Rel(RunCommands(k, s, commands), PgRun(k, t, commands)) && LogInv(PgRun(k, t, commands))
    ensures forall c :: var u := RunCommands(k, s, commands);
      PgReport(PgApply(k, PgRun(k, t, commands), c)) == Report(Apply(k, u, c)) <==> !Exceptional(u, c, Apply(k, u, c))
    decreases |commands|
  {
    hide Apply, PgApply, Step, PgStep, Rel, LogInv, Exceptional, Expected;
    if commands != [] {
      var init, last := commands[..|commands| - 1], commands[|commands| - 1];
      forall i | 0 <= i < |init| ensures !Exceptional(RunCommands(k, s, init[..i]), init[i],
          Apply(k, RunCommands(k, s, init[..i]), init[i])) {
        assert init[..i] == commands[..i] && init[i] == commands[i];
      }
      RunsRefine(k, s, t, init);
      StepRefines(k, RunCommands(k, s, init), PgRun(k, t, init), last);
    }
    var u, v := RunCommands(k, s, commands), PgRun(k, t, commands);
    forall c ensures PgReport(PgApply(k, v, c)) == Report(Apply(k, u, c)) <==> !Exceptional(u, c, Apply(k, u, c)) {
      StepRefines(k, u, v, c);
      Reported(u, c, Apply(k, u, c));
    }
  }

  lemma FreshRelated()
    ensures Rel(InitialState(), EmptyDatabase()) && LogInv(EmptyDatabase())
  {
  }

  // ---- the same, from the commands alone ----

  predicate DepositId(commands: seq<Command>, id: Id) {
    exists i :: 0 <= i < |commands| && commands[i].Deposit? && commands[i].id == id
  }

  predicate NullifierId(commands: seq<Command>, id: Id) {
    exists i :: 0 <= i < |commands| && commands[i].Withdrawal? && commands[i].id == id
  }

  predicate VersionsBelow(cells: Cells, n: nat) { forall key :: key in cells ==> cells[key].version <= n }

  // After n commands no version exceeds n, and the markers name commands of their kind.
  predicate Traced(commands: seq<Command>, s: State) {
    && VersionsBelow(s.cells, |commands|)
    && (forall id :: id in s.deposits ==> DepositId(commands, id))
    && (forall id :: id in s.nullifiers ==> NullifierId(commands, id))
  }

  lemma MoreIds(commands: seq<Command>, c: Command, id: Id)
    ensures DepositId(commands, id) || (c.Deposit? && c.id == id) ==> DepositId(commands + [c], id)
    ensures NullifierId(commands, id) || (c.Withdrawal? && c.id == id) ==> NullifierId(commands + [c], id)
  {
    var more := commands + [c];
    if DepositId(commands, id) {
      var i :| 0 <= i < |commands| && commands[i].Deposit? && commands[i].id == id;
      assert more[i] == commands[i];
    }
    if NullifierId(commands, id) {
      var i :| 0 <= i < |commands| && commands[i].Withdrawal? && commands[i].id == id;
      assert more[i] == commands[i];
    }
    assert more[|commands|] == c;
  }

  lemma WriteVersion(cells: Cells, n: nat, key: Key, record: Record)
    requires VersionsBelow(cells, n) && record.version <= n
    ensures VersionsBelow(cells[key := record], n)
  {
  }

  lemma VersionsWiden(cells: Cells, n: nat)
    requires VersionsBelow(cells, n)
    ensures VersionsBelow(cells, n + 1)
  {
  }

  // One command writes versions at most one above those it found.
  lemma StepVersions(k: Crypto, s: State, c: Command, n: nat)
    requires VersionsBelow(s.cells, n) && Apply(k, s, c).Ok?
    ensures var r := Apply(k, s, c).value;
      && TopVersion(r.0) <= n + 1 && VersionsBelow(r.1.cells, n + 1)
      && r.1.deposits == s.deposits + (if c.Deposit? then {c.id} else {})
      && r.1.nullifiers == s.nullifiers + (if c.Withdrawal? then {c.id} else {})
  {
    hide CreditedCell, DebitedCell, TransferredCells, NextRecord, TransferDerived, VersionsBelow, Guard;
    VersionsWiden(s.cells, n);
    var from, to := (c.account, c.asset), if c.Transfer? then (c.receiver, c.asset) else (c.account, c.asset);
    CellVersions(k, s.cells, from, to, c.amount, n);
    match c
    case Deposit(_, _, _, _, _) =>
      var next := CreditedCell(k, s.cells, from, c.amount);
      VersionKept(k, s.root, from, next);
      WriteVersion(s.cells, n + 1, from, NextRecord(k, s.root, from, next.value.0, next.value.1).record);
    case Withdrawal(_, _, _, _, _) =>
      var next := DebitedCell(k, s.cells, from, c.amount);
      VersionKept(k, s.root, from, next);
      WriteVersion(s.cells, n + 1, from, NextRecord(k, s.root, from, next.value.0, next.value.1).record);
    case Transfer(_, _, _, _, _, _) =>
      var p := TransferredCells(k, s.cells, from, to, c.amount).value;
      var d := TransferDerived(k, s.root, from, to, p);
      TransferVersions(k, s.root, from, to, p);
      WriteVersion(s.cells, n + 1, from, d.0.record);
      WriteVersion(s.cells[from := d.0.record], n + 1, to, d.1.record);
  }

  lemma CellVersions(k: Crypto, cells: Cells, from: Key, to: Key, amount: Amount, n: nat)
    requires VersionsBelow(cells, n)
    ensures CreditedCell(k, cells, from, amount).Ok? ==> CreditedCell(k, cells, from, amount).value.1 <= n + 1
    ensures DebitedCell(k, cells, from, amount).Ok? ==> DebitedCell(k, cells, from, amount).value.1 <= n + 1
    ensures var p := TransferredCells(k, cells, from, to, amount);
      p.Ok? ==> p.value.fromVersion <= n + 1 && p.value.toVersion <= n + 1
  {
  }

  lemma TransferVersions(k: Crypto, root: Root, from: Key, to: Key, p: Pair)
    ensures var d := TransferDerived(k, root, from, to, p);
      d.0.record.version == p.fromVersion && d.1.record.version == p.toVersion
  {
  }

  lemma {:induction false} RunTraced(k: Crypto, commands: seq<Command>)
    ensures Traced(commands, RunCommands(k, InitialState(), commands))
    decreases |commands|
  {
    hide Apply, DepositId, NullifierId, VersionsBelow;
    if commands == [] {
      assert VersionsBelow(InitialState().cells, 0) by { NoVersions(); }
    } else {
      var init, c := commands[..|commands| - 1], commands[|commands| - 1];
      var before := RunCommands(k, InitialState(), init);
      RunTraced(k, init);
      assert commands == init + [c];
      forall id { MoreIds(init, c, id); }
      if Apply(k, before, c).Ok? {
        StepVersions(k, before, c, |init|);
      } else {
        VersionsWiden(before.cells, |init|);
      }
    }
  }

  lemma NoVersions()
    ensures VersionsBelow(map[], 0)
  {
  }

  // No id names both a deposit and a withdrawal.
  predicate KindsApart(commands: seq<Command>) {
    forall i, j :: 0 <= i < |commands| && 0 <= j < |commands| && commands[i].Deposit? && commands[j].Withdrawal? ==>
      commands[i].id != commands[j].id
  }

  lemma NoClash(commands: seq<Command>, i: nat, before: State)
    requires i < |commands| && KindsApart(commands) && Traced(commands[..i], before)
    ensures !CrossKindClash(before, commands[i])
  {
    assert forall j :: 0 <= j < i ==> commands[..i][j] == commands[j];
  }

  lemma PlainCommand(k: Crypto, commands: seq<Command>, i: nat)
    requires i < |commands| < I64_LIMIT && KindsApart(commands)
    ensures var before := RunCommands(k, InitialState(), commands[..i]);
      !Exceptional(before, commands[i], Apply(k, before, commands[i]))
  {
    hide Apply, RunCommands, TopVersion, KindsApart, CrossKindClash, DepositId, NullifierId, VersionsBelow;
    var before := RunCommands(k, InitialState(), commands[..i]);
    RunTraced(k, commands[..i]);
    NoClash(commands, i, before);
    if Apply(k, before, commands[i]).Ok? {
      StepVersions(k, before, commands[i], i);
    }
  }

  // Fewer than 2^63 commands, none of which reuses an id across deposits and withdrawals: the
  // transactional runtime answers every one of them as the in-memory runtime does.
  lemma CommandsAgree(k: Crypto, commands: seq<Command>)
    requires |commands| < I64_LIMIT && KindsApart(commands)
    ensures Rel(RunCommands(k, InitialState(), commands), PgRun(k, EmptyDatabase(), commands))
    ensures forall i :: 0 <= i < |commands| ==>
      PgReport(PgApply(k, PgRun(k, EmptyDatabase(), commands[..i]), commands[i]))
      == Report(Apply(k, RunCommands(k, InitialState(), commands[..i]), commands[i]))
  {
    hide Apply, PgApply, RunCommands, PgRun, Rel, LogInv, Exceptional, KindsApart;
    FreshRelated();
    AllPlain(k, commands);
    RunsRefine(k, InitialState(), EmptyDatabase(), commands);
    forall i | 0 <= i < |commands|
      ensures PgReport(PgApply(k, PgRun(k, EmptyDatabase(), commands[..i]), commands[i]))
              == Report(Apply(k, RunCommands(k, InitialState(), commands[..i]), commands[i]))
    {
      ShorterApart(commands, i);
      AllPlain(k, commands[..i]);
      RunsRefine(k, InitialState(), EmptyDatabase(), commands[..i]);
      PlainCommand(k, commands, i);
    }
  }

  lemma ShorterApart(commands: seq<Command>, i: nat)
    requires KindsApart(commands) && i <= |commands|
    ensures KindsApart(commands[..i])
  {
  }

  lemma AllPlain(k: Crypto, commands: seq<Command>)
    requires |commands| < I64_LIMIT && KindsApart(commands)
    ensures Unexceptional(k, InitialState(), commands)
  {
    hide Apply, RunCommands, Exceptional, KindsApart;
    forall i | 0 <= i < |commands|
      ensures var before := RunCommands(k, InitialState(), commands[..i]);
        !Exceptional(before, commands[i], Apply(k, before, commands[i]))
    {
      PlainCommand(k, commands, i);
    }
  }
}
