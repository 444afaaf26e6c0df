/** What the balance runtimes answer and report, against the state they leave: which command is
    refused and why, the digests of roots, cells and transcripts, and the rows of the tables. */
module BalanceReports {
  import opened Wrappers
  import opened Bytes
  import opened Backend
  import opened Balances
  import opened Tables
  import opened BalanceLaws

  // ---- what is reported ----

  // The digest of a cell: its account, asset, ciphertext and version.
  function CellDigest(k: Crypto, key: Key, cell: Record): (d: Root) {
    k.commit("PPSC_BALANCE_DATA_V1", [key.0, key.1, cell.ciphertext, BigEndian(cell.version, 8)])
  }

  // The root after writing a cell on top of another root.
  function RootOver(k: Crypto, root: Root, key: Key, cell: Record): (r: Root) {
    k.commit("PPSC_RUNTIME_STATE_V1", [root, key.0, key.1, cell.ciphertext, BigEndian(cell.version, 8)])
  }

  function Transcript(k: Crypto, before: Root, after: Root, dataId: Root): (t: Root) {
    k.commit("PPSC_RUNTIME_TRANSCRIPT_V1", [before, after, dataId])
  }

  // A report fits the root before, and the root and cells after, of a command on one cell.
  ghost predicate ReportsOne(k: Crypto, t: Transition, before: Root, after: Root, cells: Cells, key: Key) {
    && key in cells && t.dataId == cells[key].dataId == CellDigest(k, key, cells[key])
    && t.version == cells[key].version && t.second == None
    && t.newRoot == after == RootOver(k, before, key, cells[key])
    && t.transcript == Transcript(k, before, after, t.dataId)
  }

  // The same for a transfer: the sender's cell first, then the receiver's on the root in between.
  ghost predicate ReportsTwo(k: Crypto, t: Transition, before: Root, after: Root, cells: Cells, from: Key, to: Key) {
    && from in cells && to in cells
    && t.dataId == cells[from].dataId == CellDigest(k, from, cells[from]) && t.version == cells[from].version
    && t.second == Some((cells[to].dataId, cells[to].version)) && cells[to].dataId == CellDigest(k, to, cells[to])
    && var middle := RootOver(k, before, from, cells[from]);
      t.newRoot == after == RootOver(k, middle, to, cells[to])
      && t.transcript == Transcript(k, middle, after, cells[to].dataId)
  }

  // An accepted command reports the cells and the root it leaves; only its cells and its id change.
  lemma AcceptedReport(k: Crypto, s: State, c: Command)
    requires Apply(k, s, c).Ok?
    ensures var (t, u) := Apply(k, s, c).value; var key := (c.account, c.asset);
      match c
      case Deposit(id, _, _, _, _) =>
        && ReportsOne(k, t, s.root, u.root, u.cells, key)
        && u == State(u.root, s.cells[key := u.cells[key]], s.deposits + {id}, s.nullifiers, s.transfers)
      case Withdrawal(id, _, _, _, _) =>
        && ReportsOne(k, t, s.root, u.root, u.cells, key)
        && u == State(u.root, s.cells[key := u.cells[key]], s.deposits, s.nullifiers + {id}, s.transfers)
      case Transfer(id, _, receiver, asset, _, _) =>
        var to := (receiver, asset);
        && ReportsTwo(k, t, s.root, u.root, u.cells, key, to)
        && u == State(u.root, s.cells[key := u.cells[key]][to := u.cells[to]], s.deposits, s.nullifiers,
            s.transfers + {id})
  {
    hide CreditedCell, DebitedCell, TransferredCells, BigEndian;
  }

  // In the tables too; the marker names the accounts, the amount and the root, and deposits and
  // withdrawals leave one row in the log with both roots.
  lemma TablesReport(k: Crypto, t: Database, c: Command)
    requires PgApply(k, t, c).Ok?
    ensures var (r, u) := PgApply(k, t, c).value; var key := (c.account, c.asset);
      match c
      case Deposit(id, account, asset, amount, _) =>
        && ReportsOne(k, r, t.root, u.root, u.records, key)
        && u == Database(u.root, t.records[key := u.records[key]],
            t.deposits[id := Marker(account, asset, amount, u.root)], t.nullifiers, t.transfers, t.transitions
            + [TransitionRow(DepositKind, id, account, asset, amount, t.root, u.root, r.dataId, r.transcript,
                r.version)])
      case Withdrawal(id, account, asset, amount, _) =>
        && ReportsOne(k, r, t.root, u.root, u.records, key)
        && u == Database(u.root, t.records[key := u.records[key]], t.deposits,
            t.nullifiers[id := Marker(account, asset, amount, u.root)], t.transfers, t.transitions
            + [TransitionRow(WithdrawalKind, id, account, asset, amount, t.root, u.root, r.dataId, r.transcript,
                r.version)])
      case Transfer(id, account, receiver, asset, amount, _) =>
        var to := (receiver, asset);
        && ReportsTwo(k, r, t.root, u.root, u.records, key, to)
        && u == Database(u.root, t.records[key := u.records[key]][to := u.records[to]], t.deposits, t.nullifiers,
            t.transfers[id := TransferMarker(account, receiver, asset, amount, u.root)], t.transitions)
  {
    hide CreditedCell, DebitedCell, TransferredCells, BigEndian;
  }

  // ---- over every history ----

  // Every cell carries its own digest.
  ghost predicate Digested(k: Crypto, cells: Cells) {
    forall key :: key in cells ==> cells[key].dataId == CellDigest(k, key, cells[key])
  }

  lemma {:induction false} CellsDigested(k: Crypto, commands: seq<Command>)
    ensures Digested(k, RunCommands(k, InitialState(), commands).cells)
    decreases |commands|
  {
    hide Apply, CellDigest, RootOver, Transcript;
    if commands != [] {
      var init, last := commands[..|commands| - 1], commands[|commands| - 1];
      CellsDigested(k, init);
      var s := RunCommands(k, InitialState(), init);
      if Apply(k, s, last).Ok? { AcceptedReport(k, s, last); }
    }
  }

  lemma {:induction false} RecordsDigested(k: Crypto, commands: seq<Command>)
    ensures Digested(k, PgRun(k, EmptyDatabase(), commands).records)
    decreases |commands|
  {
    hide PgApply, CellDigest, RootOver, Transcript;
    if commands != [] {
      var init, last := commands[..|commands| - 1], commands[|commands| - 1];
      RecordsDigested(k, init);
      var t := PgRun(k, EmptyDatabase(), init);
      if PgApply(k, t, last).Ok? { TablesReport(k, t, last); }
    }
  }

  // The engine makes ciphertexts for the owner it is given; `owner` says whose a ciphertext is.
  ghost predicate Binds(k: Crypto, owner: seq<Byte> -> Key) {
    && (forall n, account, asset {:trigger k.encrypt(n, account, asset)} ::
      k.encrypt(n, account, asset).Ok? ==> owner(k.encrypt(n, account, asset).value) == (account, asset))
    && forall b, account, asset {:trigger k.mpcToFhe(b, account, asset)} ::
      k.mpcToFhe(b, account, asset).Ok? ==> owner(k.mpcToFhe(b, account, asset).value) == (account, asset)
  }

  ghost predicate Owned(owner: seq<Byte> -> Key, cells: Cells) {
    forall key :: key in cells ==> owner(cells[key].ciphertext) == key
  }

  lemma NewOwned(k: Crypto, owner: seq<Byte> -> Key, cells: Cells, key: Key, to: Key, amount: Amount)
    requires Binds(k, owner)
    ensures CreditedCell(k, cells, key, amount).Ok? ==> owner(CreditedCell(k, cells, key, amount).value.0) == key
    ensures DebitedCell(k, cells, key, amount).Ok? ==> owner(DebitedCell(k, cells, key, amount).value.0) == key
    ensures var p := TransferredCells(k, cells, key, to, amount);
      p.Ok? ==> owner(p.value.from) == key && owner(p.value.to) == to
  {
  }

  lemma ApplyOwned(k: Crypto, owner: seq<Byte> -> Key, s: State, c: Command)
    requires Binds(k, owner) && Owned(owner, s.cells)
    ensures Owned(owner, Step(k, s, c).cells)
  {
    hide Binds, CreditedCell, DebitedCell, TransferredCells, BigEndian;
    var key := (c.account, c.asset);
    NewOwned(k, owner, s.cells, key, if c.Transfer? then (c.receiver, c.asset) else key, c.amount);
  }

  // With any engine that binds ciphertexts to owners, every cell's ciphertext is always its owner's.
  lemma {:induction false} CellsOwned(k: Crypto, owner: seq<Byte> -> Key, commands: seq<Command>)
    requires Binds(k, owner)
    ensures Owned(owner, RunCommands(k, InitialState(), commands).cells)
    decreases |commands|
  {
    hide Binds, Step;
    if commands != [] {
      var init := commands[..|commands| - 1];
      CellsOwned(k, owner, init);
      ApplyOwned(k, owner, RunCommands(k, InitialState(), init), commands[|commands| - 1]);
    }
  }

  // ---- which commands are refused ----

  // On readable cells: the first reason that applies, in the order of the checks, or none.
  function Refusal(s: State, c: Command): (e: Option<RuntimeError>) {
    var n := BalanceOf(s.cells, (c.account, c.asset));
    if c.amount == 0 || (c.Transfer? && c.account == c.receiver) then Some(InvalidAmount)
    else if c.expectedRoot != s.root then Some(StaleStateRoot)
    else if c.Deposit? then
      if c.id in s.deposits then Some(DepositAlreadyProcessed)
      else if n + c.amount >= U128 then Some(BackendFailure(BackendError.Overflow))
      else None
    else if c.id in (if c.Withdrawal? then s.nullifiers else s.transfers) then Some(NullifierAlreadySpent)
    else if (c.account, c.asset) !in s.cells then Some(BalanceNotFound)
    else if n < c.amount then Some(Insufficient)
    else if c.Transfer? && BalanceOf(s.cells, (c.receiver, c.asset)) + c.amount >= U128 then
      Some(BackendFailure(BackendError.Overflow))
    else None
  }

  ghost predicate Answers(r: Result<(Transition, State), RuntimeError>, e: Option<RuntimeError>) {
    match e
    case Some(x) => r == Err(x)
    case None => r.Ok?
  }

  lemma DepositAnswer(commit: (string, seq<seq<Byte>>) -> Root, s: State, c: Command)
    requires c.Deposit? && Readable(s.cells)
    ensures Answers(CreditDeposit(PlainCrypto(commit), s, c), Refusal(s, c))
  {
    hide Readable, BalanceOf, CreditedCell, NextRecord, PlainCrypto, VersionOf, Ciphertext;
    CreditMeaning(commit, s.cells, (c.account, c.asset), c.amount);
  }

  lemma WithdrawalAnswer(commit: (string, seq<seq<Byte>>) -> Root, s: State, c: Command)
    requires c.Withdrawal? && Readable(s.cells)
    ensures Answers(DebitWithdrawal(PlainCrypto(commit), s, c), Refusal(s, c))
  {
    hide Readable, BalanceOf, DebitedCell, NextRecord, PlainCrypto, VersionOf, Ciphertext;
    DebitMeaning(commit, s.cells, (c.account, c.asset), c.amount);
  }

  lemma TransferAnswer(commit: (string, seq<seq<Byte>>) -> Root, s: State, c: Command)
    requires c.Transfer? && Readable(s.cells)
    ensures Answers(MoveBalance(PlainCrypto(commit), s, c), Refusal(s, c))
  {
    hide Readable, BalanceOf, TransferredCells, TransferDerived, PlainCrypto, VersionOf, Ciphertext;
    TransferMeaning(commit, s.cells, (c.account, c.asset), (c.receiver, c.asset), c.amount);
  }

  // With any engine: when the cell's ciphertext cannot be read, that is the answer of a command that
  // passes the checks before, under the engine's reason.
  lemma EngineRefusal(k: Crypto, s: State, c: Command, e: BackendError)
    requires Guard(c, s.root).Ok? && (c.account, c.asset) in s.cells
    requires c.id !in (if c.Deposit? then s.deposits else if c.Withdrawal? then s.nullifiers else s.transfers)
    requires k.fheToMpc(s.cells[(c.account, c.asset)].ciphertext) == Err(e)
    ensures Apply(k, s, c) == Err(match e
                                  case InsufficientBalance => Insufficient
                                  case Unauthorized => NotAuthorized
                                  case other => BackendFailure(other))
  {
  }

  // Exactly those commands are refused, with that error, in every reachable state.
  lemma RefusedExactly(commit: (string, seq<seq<Byte>>) -> Root, commands: seq<Command>, c: Command)
    ensures var k := PlainCrypto(commit); var s := RunCommands(k, InitialState(), commands);
      Answers(Apply(k, s, c), Refusal(s, c))
  {
    hide RunCommands, Answers, Refusal, PlainCrypto, CreditDeposit, DebitWithdrawal, MoveBalance;
    RunReadable(commit, commands);
    var s := RunCommands(PlainCrypto(commit), InitialState(), commands);
    match c
    case Deposit(_, _, _, _, _) => DepositAnswer(commit, s, c);
    case Withdrawal(_, _, _, _, _) => WithdrawalAnswer(commit, s, c);
    case Transfer(_, _, _, _, _, _) => TransferAnswer(commit, s, c);
  }
}
