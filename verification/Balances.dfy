/** Confidential balance cells: the commands, what they compute, and the in-memory runtime. */
module Balances {
  import opened Wrappers
  import opened Bytes
  import opened Backend

  type Id = seq<Byte>
  type Account = seq<Byte>
  type Asset = seq<Byte>
  type Root = seq<Byte>
  type Key = (Account, Asset)

  datatype RuntimeError =
    | InvalidAmount
    | StaleStateRoot
    | DepositAlreadyProcessed
    | NullifierAlreadySpent
    | BalanceNotFound
    | Insufficient
    | NotAuthorized
    | PersistenceFailure
    | CorruptPersistence
    | BackendFailure(error: BackendError)

  function FromBackend(e: BackendError): (r: RuntimeError) {
    match e
    case InsufficientBalance => Insufficient
    case Unauthorized => NotAuthorized
    case _ => BackendFailure(e)
  }

  function Lift<T>(r: Result<T, BackendError>): (l: Result<T, RuntimeError>) {
    match r
    case Ok(v) => Ok(v)
    case Err(e) => Err(FromBackend(e))
  }

  type Amount = Backend.Amount

  // The confidential engine: shares and ciphertexts are bytes only it can read. Any functions
  // will do.
  datatype Crypto = Crypto(
    fheToMpc: seq<Byte> -> Result<seq<Byte>, BackendError>,
    share: Amount -> Result<seq<Byte>, BackendError>,
    add: (seq<Byte>, seq<Byte>) -> Result<seq<Byte>, BackendError>,
    sub: (seq<Byte>, seq<Byte>) -> Result<seq<Byte>, BackendError>,
    geq: (seq<Byte>, seq<Byte>) -> Result<bool, BackendError>,
    mpcToFhe: (seq<Byte>, Account, Asset) -> Result<seq<Byte>, BackendError>,
    encrypt: (Amount, Account, Asset) -> Result<seq<Byte>, BackendError>,
    commit: (string, seq<seq<Byte>>) -> Root)

  datatype Command =
    | Deposit(id: Id, account: Account, asset: Asset, amount: Amount, expectedRoot: Root)
    | Withdrawal(id: Id, account: Account, asset: Asset, amount: Amount, expectedRoot: Root)
    | Transfer(id: Id, account: Account, receiver: Account, asset: Asset, amount: Amount, expectedRoot: Root)

  datatype Record = Record(ciphertext: seq<Byte>, dataId: Root, version: nat)

  // What an accepted command reports; a deposit or withdrawal has no second cell.
  datatype Transition = Transition(newRoot: Root, dataId: Root, transcript: Root, version: nat,
      second: Option<(Root, nat)>)

  datatype Derived = Derived(record: Record, newRoot: Root, transcript: Root)

  // The record, the root and the transcript that follow from writing one cell.
  function NextRecord(k: Crypto, oldRoot: Root, key: Key, ciphertext: seq<Byte>, version: nat): (d: Derived) {
    var v := BigEndian(version, 8);
    var newRoot := k.commit("PPSC_RUNTIME_STATE_V1", [oldRoot, key.0, key.1, ciphertext, v]);
    var dataId := k.commit("PPSC_BALANCE_DATA_V1", [key.0, key.1, ciphertext, v]);
    Derived(Record(ciphertext, dataId, version), newRoot,
        k.commit("PPSC_RUNTIME_TRANSCRIPT_V1", [oldRoot, newRoot, dataId]))
  }

  type Cells = map<Key, Record>

  function CreditedCell(k: Crypto, cells: Cells, key: Key,
      amount: Amount): (r: Result<(seq<Byte>, nat), RuntimeError>)
  {
    if key in cells then
      var current :- Lift(k.fheToMpc(cells[key].ciphertext));
      var deposit :- Lift(k.share(amount));
      var next :- Lift(k.add(current, deposit));
      var ciphertext :- Lift(k.mpcToFhe(next, key.0, key.1));
      Ok((ciphertext, cells[key].version + 1))
    else
      var ciphertext :- Lift(k.encrypt(amount, key.0, key.1));
      Ok((ciphertext, 1))
  }

  function DebitedCell(k: Crypto, cells: Cells, key: Key, amount: Amount): (r: Result<(seq<Byte>, nat), RuntimeError>) {
    if key !in cells then Err(BalanceNotFound)
    else
      var current :- Lift(k.fheToMpc(cells[key].ciphertext));
      var debit :- Lift(k.share(amount));
      var enough :- Lift(k.geq(current, debit));
      if !enough then Err(Insufficient)
      else
        var next :- Lift(k.sub(current, debit));
        var ciphertext :- Lift(k.mpcToFhe(next, key.0, key.1));
        Ok((ciphertext, cells[key].version + 1))
  }

  datatype Pair = Pair(from: seq<Byte>, fromVersion: nat, to: seq<Byte>, toVersion: nat)

  function TransferredCells(k: Crypto, cells: Cells, from: Key, to: Key,
      amount: Amount): (r: Result<Pair, RuntimeError>)
  {
    if from !in cells then Err(BalanceNotFound)
    else
      var sender :- Lift(k.fheToMpc(cells[from].ciphertext));
      var receiver :- Lift(if to in cells then k.fheToMpc(cells[to].ciphertext) else k.share(0));
      var moved :- Lift(k.share(amount));
      var enough :- Lift(k.geq(sender, moved));
      if !enough then Err(Insufficient)
      else
        var senderNext :- Lift(k.sub(sender, moved));
        var receiverNext :- Lift(k.add(receiver, moved));
        var senderOut :- Lift(k.mpcToFhe(senderNext, from.0, from.1));
        var receiverOut :- Lift(k.mpcToFhe(receiverNext, to.0, to.1));
        Ok(Pair(senderOut, cells[from].version + 1, receiverOut, if to in cells then cells[to].version + 1 else 1))
  }

  // ---- the in-memory runtime ----

  datatype State = State(root: Root, cells: Cells, deposits: set<Id>, nullifiers: set<Id>, transfers: set<Id>)

  function ZeroRoot(): (r: Root) { seq(32, _ => 0) }

  function InitialState(): (s: State) { State(ZeroRoot(), map[], {}, {}, {}) }

  function Guard(c: Command, root: Root): (r: Result<(), RuntimeError>) {
    if c.amount == 0 || (c.Transfer? && c.account == c.receiver) then Err(InvalidAmount)
    else if root != c.expectedRoot then Err(StaleStateRoot)
    else Ok(())
  }

  function CreditDeposit(k: Crypto, s: State, c: Command): (r: Result<(Transition, State), RuntimeError>)
    requires c.Deposit?
  {
    var _ :- Guard(c, s.root);
    if c.id in s.deposits then Err(DepositAlreadyProcessed)
    else
      var key := (c.account, c.asset);
      var next :- CreditedCell(k, s.cells, key, c.amount);
      var d := NextRecord(k, s.root, key, next.0, next.1);
      Ok((Transition(d.newRoot, d.record.dataId, d.transcript, next.1, None),
          s.(root := d.newRoot, cells := s.cells[key := d.record], deposits := s.deposits + {c.id})))
  }

  function DebitWithdrawal(k: Crypto, s: State, c: Command): (r: Result<(Transition, State), RuntimeError>)
    requires c.Withdrawal?
  {
    var _ :- Guard(c, s.root);
    if c.id in s.nullifiers then Err(NullifierAlreadySpent)
    else
      var key := (c.account, c.asset);
      var next :- DebitedCell(k, s.cells, key, c.amount);
      var d := NextRecord(k, s.root, key, next.0, next.1);
      Ok((Transition(d.newRoot, d.record.dataId, d.transcript, next.1, None),
          s.(root := d.newRoot, cells := s.cells[key := d.record], nullifiers := s.nullifiers + {c.id})))
  }

  // The two cells of a transfer: the sender's, then the receiver's from the intermediate root.
  function TransferDerived(k: Crypto, root: Root, from: Key, to: Key, p: Pair): (d: (Derived, Derived)) {
    var sender := NextRecord(k, root, from, p.from, p.fromVersion);
    (sender, NextRecord(k, sender.newRoot, to, p.to, p.toVersion))
  }

  function TransferReport(p: Pair, d: (Derived, Derived)): (t: Transition) {
    Transition(d.1.newRoot, d.0.record.dataId, d.1.transcript, p.fromVersion, Some((d.1.record.dataId, p.toVersion)))
  }

  function MoveBalance(k: Crypto, s: State, c: Command): (r: Result<(Transition, State), RuntimeError>)
    requires c.Transfer?
  {
    var _ :- Guard(c, s.root);
    if c.id in s.transfers then Err(NullifierAlreadySpent)
    else
      var from, to := (c.account, c.asset), (c.receiver, c.asset);
      var p :- TransferredCells(k, s.cells, from, to, c.amount);
      var d := TransferDerived(k, s.root, from, to, p);
      Ok((TransferReport(p, d),
          s.(root := d.1.newRoot, cells := s.cells[from := d.0.record][to := d.1.record],
              transfers := s.transfers + {c.id})))
  }

  function Apply(k: Crypto, s: State, c: Command): (r: Result<(Transition, State), RuntimeError>) {
    match c
    case Deposit(_, _, _, _, _) => CreditDeposit(k, s, c)
    case Withdrawal(_, _, _, _, _) => DebitWithdrawal(k, s, c)
    case Transfer(_, _, _, _, _, _) => MoveBalance(k, s, c)
  }

  // A rejected command changes nothing.
  function Step(k: Crypto, s: State, c: Command): (t: State) {
    match Apply(k, s, c)
    case Ok(r) => r.1
    case Err(_) => s
  }

  function RunCommands(k: Crypto, s: State, commands: seq<Command>): (t: State)
    decreases |commands|
  {
    if commands == [] then s else Step(k, RunCommands(k, s, commands[..|commands| - 1]), commands[|commands| - 1])
  }

  function Report(r: Result<(Transition, State), RuntimeError>): (t: Result<Transition, RuntimeError>) {
    match r
    case Ok(p) => Ok(p.0)
    case Err(e) => Err(e)
  }

  class BalanceRuntime {
    const crypto: Crypto
    var root: Root
    var cells: Cells
    var processedDeposits: set<Id>
    var spentNullifiers: set<Id>
    var processedTransfers: set<Id>

    function Contents(): (s: State)
      reads this
    {
      State(root, cells, processedDeposits, spentNullifiers, processedTransfers)
    }

    constructor (crypto: Crypto)
      ensures this.crypto == crypto && Contents() == InitialState()
    {
      this.crypto, root, cells := crypto, ZeroRoot(), map[];
      processedDeposits, spentNullifiers, processedTransfers := {}, {}, {};
    }

    method Credit(c: Command) returns (r: Result<Transition, RuntimeError>)
      requires c.Deposit?
      modifies this
      ensures r == Report(CreditDeposit(crypto, old(Contents()), c)) && Contents() == Step(crypto, old(Contents()), c)
    {
      if c.amount == 0 { return Err(InvalidAmount); }
      if root != c.expectedRoot { return Err(StaleStateRoot); }
      if c.id in processedDeposits { return Err(DepositAlreadyProcessed); }
      var key := (c.account, c.asset);
      var next := CreditedCell(crypto, cells, key, c.amount);
      if next.Err? { return Err(next.error); }
      var d := NextRecord(crypto, root, key, next.value.0, next.value.1);
      cells := cells[key := d.record];
      processedDeposits := processedDeposits + {c.id};
      root := d.newRoot;
      return Ok(Transition(d.newRoot, d.record.dataId, d.transcript, next.value.1, None));
    }

    method Debit(c: Command) returns (r: Result<Transition, RuntimeError>)
      requires c.Withdrawal?
      modifies this
      ensures r == Report(DebitWithdrawal(crypto, old(Contents()), c)) && Contents() == Step(crypto, old(Contents()), c)
    {
      if c.amount == 0 { return Err(InvalidAmount); }
      if root != c.expectedRoot { return Err(StaleStateRoot); }
      if c.id in spentNullifiers { return Err(NullifierAlreadySpent); }
      var key := (c.account, c.asset);
      var next := DebitedCell(crypto, cells, key, c.amount);
      if next.Err? { return Err(next.error); }
      var d := NextRecord(crypto, root, key, next.value.0, next.value.1);
      cells := cells[key := d.record];
      spentNullifiers := spentNullifiers + {c.id};
      root := d.newRoot;
      return Ok(Transition(d.newRoot, d.record.dataId, d.transcript, next.value.1, None));
    }

    method Move(c: Command) returns (r: Result<Transition, RuntimeError>)
      requires c.Transfer?
      modifies this
      ensures r == Report(MoveBalance(crypto, old(Contents()), c)) && Contents() == Step(crypto, old(Contents()), c)
    {
      if c.amount == 0 || c.account == c.receiver { return Err(InvalidAmount); }
      if root != c.expectedRoot { return Err(StaleStateRoot); }
      if c.id in processedTransfers { return Err(NullifierAlreadySpent); }
      var from, to := (c.account, c.asset), (c.receiver, c.asset);
      var p := TransferredCells(crypto, cells, from, to, c.amount);
      if p.Err? { return Err(p.error); }
      var d := TransferDerived(crypto, root, from, to, p.value);
      cells := cells[from := d.0.record];
      cells := cells[to := d.1.record];
      processedTransfers := processedTransfers + {c.id};
      root := d.1.newRoot;
      return Ok(TransferReport(p.value, d));
    }
  }
}
