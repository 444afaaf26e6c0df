/** What holds of every command sequence of the balance runtime on the plaintext backend:
    conservation per asset, versions that count, single use of ids, the root as a fold. */
module BalanceLaws {
  import opened Wrappers
  import opened Sequences
  import opened Bytes
  import opened Text
  import opened Backend
  import opened Balances
  import opened Tables

  // ---- the plaintext backend ----

  function DevPrefix(): (p: seq<Byte>) { Utf8("PPSC_DEV_PLAINTEXT_FHE_V1") }

  function Secret(n: nat): (b: seq<Byte>) { BigEndian(n, 16) }

  function Ciphertext(n: nat): (b: seq<Byte>) { DevPrefix() + BigEndian(n, 16) }

  function DecodeSecret(b: seq<Byte>): (r: Result<nat, BackendError>) {
    if |b| != 16 then Err(InvalidEncoding) else Ok(FromBigEndian(b))
  }

  function DecodeCiphertext(b: seq<Byte>): (r: Result<nat, BackendError>) {
    if |b| != |DevPrefix()| + 16 || !(DevPrefix() <= b) then Err(InvalidCiphertext)
    else DecodeSecret(b[|DevPrefix()|..])
  }

  function PlainAdd(a: seq<Byte>, b: seq<Byte>): (r: Result<seq<Byte>, BackendError>) {
    var x :- DecodeSecret(a);
    var y :- DecodeSecret(b);
    if x + y < U128 then Ok(Secret(x + y)) else Err(Overflow)
  }

  function PlainSub(a: seq<Byte>, b: seq<Byte>): (r: Result<seq<Byte>, BackendError>) {
    var x :- DecodeSecret(a);
    var y :- DecodeSecret(b);
    if x >= y then Ok(Secret(x - y)) else Err(InsufficientBalance)
  }

  function PlainGeq(a: seq<Byte>, b: seq<Byte>): (r: Result<bool, BackendError>) {
    var x :- DecodeSecret(a);
    var y :- DecodeSecret(b);
    Ok(x >= y)
  }

  function PlainToMpc(b: seq<Byte>): (r: Result<seq<Byte>, BackendError>) {
    var n :- DecodeCiphertext(b);
    Ok(Secret(n))
  }

  function PlainToFhe(b: seq<Byte>): (r: Result<seq<Byte>, BackendError>) {
    var n :- DecodeSecret(b);
    Ok(Ciphertext(n))
  }

  // The digest stays a parameter.
  function PlainCrypto(commit: (string, seq<seq<Byte>>) -> Root): (k: Crypto) {
    Crypto(PlainToMpc, (n: Amount) => Ok(Secret(n)), PlainAdd, PlainSub, PlainGeq, (b, account, asset) => PlainToFhe(b),
           (n: Amount, account, asset) => Ok(Ciphertext(n)), commit)
  }

  lemma SecretRead(n: nat)
    requires n < U128
    ensures DecodeSecret(Secret(n)) == Ok(n) && DecodeCiphertext(Ciphertext(n)) == Ok(n)
  {
    hide DevPrefix;
    Width16();
    ReadBack(n, 16);
    var p := DevPrefix();
    assert (p + BigEndian(n, 16))[|p|..] == BigEndian(n, 16);
  }

  // A ciphertext is exactly the prefix and a 128-bit number; anything else is refused as one.
  lemma CiphertextExactly(b: seq<Byte>, n: nat)
    ensures DecodeCiphertext(b) == Ok(n) <==> n < U128 && b == Utf8("PPSC_DEV_PLAINTEXT_FHE_V1") + BigEndian(n, 16)
    ensures DecodeCiphertext(b).Err? ==> DecodeCiphertext(b).error == InvalidCiphertext
  {
    hide Utf8, FromBigEndian, BigEndian;
    Width16();
    var p := DevPrefix();
    if n < U128 {
      ReadBack(n, 16);
      assert (p + BigEndian(n, 16))[|p|..] == BigEndian(n, 16);
    }
    if DecodeCiphertext(b).Ok? {
      WriteBack(b[|p|..]);
      assert b == p + b[|p|..];
    }
  }

  // ---- balances in the clear ----

  ghost predicate Readable(cells: Cells) {
    forall key :: key in cells ==> exists n: nat :: n < U128 && cells[key].ciphertext == Ciphertext(n)
  }

  function BalanceOf(cells: Cells, key: Key): (n: nat) {
    if key !in cells then 0
    else match DecodeCiphertext(cells[key].ciphertext)
         case Ok(n) => n
         case Err(_) => 0
  }

  function VersionOf(cells: Cells, key: Key): (v: nat) { if key in cells then cells[key].version else 0 }

  lemma BalanceRead(cells: Cells, key: Key)
    requires Readable(cells)
    ensures BalanceOf(cells, key) < U128
    ensures key in cells ==> cells[key].ciphertext == Ciphertext(BalanceOf(cells, key))
  {
    hide DecodeCiphertext, Ciphertext;
    if key in cells {
      var n: nat :| n < U128 && cells[key].ciphertext == Ciphertext(n);
      SecretRead(n);
    }
  }

  lemma PlainOps(a: nat, b: nat)
    requires a < U128 && b < U128
    ensures PlainToMpc(Ciphertext(a)) == Ok(Secret(a)) && PlainToFhe(Secret(a)) == Ok(Ciphertext(a))
    ensures PlainAdd(Secret(a), Secret(b)) == if a + b < U128 then Ok(Secret(a + b)) else Err(Overflow)
    ensures PlainGeq(Secret(a), Secret(b)) == Ok(a >= b)
    ensures PlainSub(Secret(a), Secret(b)) == if a >= b then Ok(Secret(a - b)) else Err(InsufficientBalance)
  {
    hide DecodeSecret, DecodeCiphertext, Secret, Ciphertext;
    SecretRead(a);
    SecretRead(b);
  }

  lemma CreditMeaning(commit: (string, seq<seq<Byte>>) -> Root, cells: Cells, key: Key, amount: Amount)
    requires Readable(cells)
    ensures var n := BalanceOf(cells, key) + amount;
      CreditedCell(PlainCrypto(commit), cells, key, amount)
      == if n < U128 then Ok((Ciphertext(n), VersionOf(cells, key) + 1)) else Err(BackendFailure(Overflow))
  {
    hide PlainToMpc, PlainToFhe, PlainAdd, Ciphertext, Secret, BalanceOf;
    BalanceRead(cells, key);
    NoBalance(cells, key);
    PlainOps(BalanceOf(cells, key), amount);
    if BalanceOf(cells, key) + amount < U128 {
      PlainOps(BalanceOf(cells, key) + amount, 0);
    }
  }

  lemma NoBalance(cells: Cells, key: Key)
    ensures key !in cells ==> BalanceOf(cells, key) == 0
  {
  }

  lemma DebitMeaning(commit: (string, seq<seq<Byte>>) -> Root, cells: Cells, key: Key, amount: Amount)
    requires Readable(cells)
    ensures var n := BalanceOf(cells, key);
      DebitedCell(PlainCrypto(commit), cells, key, amount)
      == if key !in cells then Err(BalanceNotFound)
         else if n < amount then Err(Insufficient)
         else Ok((Ciphertext(n - amount), VersionOf(cells, key) + 1))
  {
    hide PlainToMpc, PlainToFhe, PlainGeq, PlainSub, Ciphertext, Secret, BalanceOf;
    BalanceRead(cells, key);
    PlainOps(BalanceOf(cells, key), amount);
    if BalanceOf(cells, key) >= amount {
      PlainOps(BalanceOf(cells, key) - amount, 0);
    }
  }

  lemma TransferMeaning(commit: (string, seq<seq<Byte>>) -> Root, cells: Cells, from: Key, to: Key, amount: Amount)
    requires Readable(cells)
    ensures var n, m := BalanceOf(cells, from), BalanceOf(cells, to);
      TransferredCells(PlainCrypto(commit), cells, from, to, amount)
      == if from !in cells then Err(BalanceNotFound)
         else if n < amount then Err(Insufficient)
         else if m + amount >= U128 then Err(BackendFailure(Overflow))
         else Ok(Pair(Ciphertext(n - amount), VersionOf(cells, from) + 1, Ciphertext(m + amount),
             VersionOf(cells, to) + 1))
  {
    hide PlainToMpc, PlainToFhe, PlainGeq, PlainSub, PlainAdd, Ciphertext, Secret, BalanceOf;
    BalanceRead(cells, from);
    BalanceRead(cells, to);
    NoBalance(cells, to);
    var n, m := BalanceOf(cells, from), BalanceOf(cells, to);
    PlainOps(n, amount);
    PlainOps(m, amount);
    if n >= amount { PlainOps(n - amount, 0); }
    if m + amount < U128 { PlainOps(m + amount, 0); }
  }

  // ---- what one command does to one cell ----

  function Cell(c: Command): (key: Key) { (c.account, c.asset) }

  // How much an accepted command adds to a cell.
  function Delta(c: Command, key: Key): (d: int) {
    match c
    case Deposit(_, _, _, _, _) => if key == Cell(c) then c.amount else 0
    case Withdrawal(_, _, _, _, _) => if key == Cell(c) then -(c.amount as int) else 0
    case Transfer(_, _, _, _, _, _) =>
      if key == Cell(c) then -(c.amount as int) else if key == (c.receiver, c.asset) then c.amount else 0
  }

  function Touched(c: Command, key: Key): (n: nat) {
    if key == Cell(c) || (c.Transfer? && key == (c.receiver, c.asset)) then 1 else 0
  }

  lemma WriteCell(cells: Cells, key: Key, d: Record, n: nat)
    requires Readable(cells) && n < U128 && d.ciphertext == Ciphertext(n)
    ensures Readable(cells[key := d])
    ensures BalanceOf(cells[key := d], key) == n && VersionOf(cells[key := d], key) == d.version
    ensures forall other :: other != key ==>
        BalanceOf(cells[key := d], other) == BalanceOf(cells, other)
        && VersionOf(cells[key := d], other) == VersionOf(cells, other)
  {
    hide Ciphertext, DecodeCiphertext;
    SecretRead(n);
  }

  // Accepted: every cell changes by the command's delta and counts its touches. Rejected: nothing
  // changes.
  ghost predicate Follows(commit: (string, seq<seq<Byte>>) -> Root, s: State, c: Command) {
    var t := Step(PlainCrypto(commit), s, c);
    var ok := Apply(PlainCrypto(commit), s, c).Ok?;
    && Readable(t.cells)
    && (forall key :: BalanceOf(t.cells, key) == BalanceOf(s.cells, key) + (if ok then Delta(c, key) else 0))
    && (forall key :: VersionOf(t.cells, key) == VersionOf(s.cells, key) + (if ok then Touched(c, key) else 0))
  }

  lemma StepMeaning(commit: (string, seq<seq<Byte>>) -> Root, s: State, c: Command)
    requires Readable(s.cells)
    ensures Follows(commit, s, c)
  {
    hide *;
    match c
    case Deposit(_, _, _, _, _) => DepositStep(commit, s, c);
    case Withdrawal(_, _, _, _, _) => WithdrawalStep(commit, s, c);
    case Transfer(_, _, _, _, _, _) => TransferStep(commit, s, c);
  }

  lemma DepositStep(commit: (string, seq<seq<Byte>>) -> Root, s: State, c: Command)
    requires c.Deposit? && Readable(s.cells)
    ensures Follows(commit, s, c)
  {
    hide Ciphertext, BalanceOf, VersionOf, PlainCrypto, CreditedCell, Readable;
    var key := Cell(c);
    CreditMeaning(commit, s.cells, key, c.amount);
    if Apply(PlainCrypto(commit), s, c).Ok? {
      WriteCell(s.cells, key, Step(PlainCrypto(commit), s, c).cells[key], BalanceOf(s.cells, key) + c.amount);
    }
  }

  lemma WithdrawalStep(commit: (string, seq<seq<Byte>>) -> Root, s: State, c: Command)
    requires c.Withdrawal? && Readable(s.cells)
    ensures Follows(commit, s, c)
  {
    hide Ciphertext, BalanceOf, VersionOf, PlainCrypto, DebitedCell, Readable;
    var key := Cell(c);
    DebitMeaning(commit, s.cells, key, c.amount);
    BalanceRead(s.cells, key);
    if Apply(PlainCrypto(commit), s, c).Ok? {
      WriteCell(s.cells, key, Step(PlainCrypto(commit), s, c).cells[key], BalanceOf(s.cells, key) - c.amount);
    }
  }

  lemma TransferStep(commit: (string, seq<seq<Byte>>) -> Root, s: State, c: Command)
    requires c.Transfer? && Readable(s.cells)
    ensures Follows(commit, s, c)
  {
    hide Ciphertext, BalanceOf, VersionOf, PlainCrypto, TransferredCells, Readable;
    var key, to := Cell(c), (c.receiver, c.asset);
    TransferMeaning(commit, s.cells, key, to, c.amount);
    BalanceRead(s.cells, key);
    if Apply(PlainCrypto(commit), s, c).Ok? {
      var t := Step(PlainCrypto(commit), s, c).cells;
      WriteCell(s.cells, key, t[key], BalanceOf(s.cells, key) - c.amount);
      WriteCell(s.cells[key := t[key]], to, t[to], BalanceOf(s.cells, to) + c.amount);
      assert s.cells[key := t[key]][to := t[to]] == t;
    }
  }

  // ---- totals over a history ----

  function TotalOf(cells: Cells, asset: Asset, accounts: seq<Account>): (t: nat) {
    if accounts == [] then 0
    else TotalOf(cells, asset, accounts[..|accounts| - 1]) + BalanceOf(cells, (accounts[|accounts| - 1], asset))
  }

  function Is(a: Account, b: Account): (n: nat) { if a == b then 1 else 0 }

  function Count(accounts: seq<Account>, a: Account): (n: nat) { if a in accounts then 1 else 0 }

  // How an accepted command moves the total of a listing of accounts.
  function ListedDelta(c: Command, asset: Asset, accounts: seq<Account>): (d: int) {
    if c.asset != asset then 0
    else match c
      case Deposit(_, _, _, _, _) => c.amount * Count(accounts, c.account)
      case Withdrawal(_, _, _, _, _) => -(c.amount as int) * Count(accounts, c.account)
      case Transfer(_, _, _, _, _, _) => c.amount * Count(accounts, c.receiver) - c.amount * Count(accounts, c.account)
  }

  lemma CountSnoc(init: seq<Account>, last: Account, a: Account)
    requires Distinct(init + [last])
    ensures Count(init + [last], a) == Count(init, a) + Is(last, a)
  {
    if a in init {
      var i :| 0 <= i < |init| && init[i] == a;
      assert (init + [last])[i] == a && (init + [last])[|init|] == last;
    }
    if a == last { assert (init + [last])[|init|] == a; }
  }

  lemma {:induction false} TotalDelta(before: Cells, after: Cells, c: Command, asset: Asset, accounts: seq<Account>)
    requires Distinct(accounts) && (c.Transfer? ==> c.account != c.receiver)
    requires forall key :: BalanceOf(after, key) == BalanceOf(before, key) + Delta(c, key)
    ensures TotalOf(after, asset, accounts) == TotalOf(before, asset, accounts) + ListedDelta(c, asset, accounts)
    decreases |accounts|
  {
    hide BalanceOf, Count;
    if accounts == [] {
      NoneCounted(c.account);
      if c.Transfer? { NoneCounted(c.receiver); }
    } else {
      var init, last := accounts[..|accounts| - 1], accounts[|accounts| - 1];
      assert accounts == init + [last];
      TotalDelta(before, after, c, asset, init);
      CountSnoc(init, last, c.account);
      assert BalanceOf(after, (last, asset)) == BalanceOf(before, (last, asset)) + Delta(c, (last, asset));
      SnocDelta(c, asset, init, last);
    }
  }

  lemma NoneCounted(a: Account)
    ensures Count([], a) == 0
  {
  }

  lemma SnocDelta(c: Command, asset: Asset, init: seq<Account>, last: Account)
    requires Distinct(init + [last]) && (c.Transfer? ==> c.account != c.receiver)
    ensures ListedDelta(c, asset, init + [last]) == ListedDelta(c, asset, init) + Delta(c, (last, asset))
  {
    hide Count;
    CountSnoc(init, last, c.account);
    if c.Transfer? { CountSnoc(init, last, c.receiver); }
  }

  predicate Accepted(k: Crypto, commands: seq<Command>, i: nat)
    requires i < |commands|
  {
    Apply(k, RunCommands(k, InitialState(), commands[..i]), commands[i]).Ok?
  }

  // Sums of the accepted deposits and of the accepted withdrawals of an asset.
  function Deposited(k: Crypto, commands: seq<Command>, asset: Asset): (n: nat)
    decreases |commands|
  {
    if commands == [] then 0
    else
      var last := commands[|commands| - 1];
      Deposited(k, commands[..|commands| - 1], asset)
      + if last.Deposit? && last.asset == asset && Accepted(k, commands, |commands| - 1) then last.amount else 0
  }

  function Withdrawn(k: Crypto, commands: seq<Command>, asset: Asset): (n: nat)
    decreases |commands|
  {
    if commands == [] then 0
    else
      var last := commands[|commands| - 1];
      Withdrawn(k, commands[..|commands| - 1], asset)
      + if last.Withdrawal? && last.asset == asset && Accepted(k, commands, |commands| - 1) then last.amount else 0
  }

  // Accepted commands that touched a cell.
  function Touches(k: Crypto, commands: seq<Command>, key: Key): (n: nat)
    decreases |commands|
  {
    if commands == [] then 0
    else
      Touches(k, commands[..|commands| - 1], key)
      + if Accepted(k, commands, |commands| - 1) then Touched(commands[|commands| - 1], key) else 0
  }

  // Every account a command of this asset names is listed.
  predicate Listed(c: Command, asset: Asset, accounts: seq<Account>) {
    c.asset == asset ==> c.account in accounts && (c.Transfer? ==> c.receiver in accounts)
  }

  lemma {:induction false} RunReadable(commit: (string, seq<seq<Byte>>) -> Root, commands: seq<Command>)
    ensures Readable(RunCommands(PlainCrypto(commit), InitialState(), commands).cells)
    decreases |commands|
  {
    hide Step, Readable, PlainCrypto;
    if commands == [] {
      EmptyReadable();
    } else {
      RunReadable(commit, commands[..|commands| - 1]);
      StepMeaning(commit, RunCommands(PlainCrypto(commit), InitialState(), commands[..|commands| - 1]),
          commands[|commands| - 1]);
    }
  }

  lemma EmptyReadable()
    ensures Readable(InitialState().cells)
  {
  }

  lemma {:induction false} EmptyTotal(asset: Asset, accounts: seq<Account>)
    ensures TotalOf(InitialState().cells, asset, accounts) == 0
    decreases |accounts|
  {
    hide BalanceOf;
    if accounts != [] {
      NoBalance(InitialState().cells, (accounts[|accounts| - 1], asset));
      EmptyTotal(asset, accounts[..|accounts| - 1]);
    }
  }

  // Conservation over every command sequence: per asset, the balances of any listing of all its
  // accounts plus the accepted withdrawals are the accepted deposits.
  lemma {:induction false} Conservation(commit: (string, seq<seq<Byte>>) -> Root, commands: seq<Command>, asset: Asset,
      accounts: seq<Account>)
    requires Distinct(accounts) && forall i :: 0 <= i < |commands| ==> Listed(commands[i], asset, accounts)
    ensures var k := PlainCrypto(commit);
      TotalOf(RunCommands(k, InitialState(), commands).cells, asset, accounts) + Withdrawn(k, commands, asset)
          == Deposited(k, commands, asset)
    decreases |commands|
  {
    hide Step, PlainCrypto, TotalOf, Apply, InitialState, Distinct, BalanceOf, VersionOf, Readable, Delta, Touched;
    var k := PlainCrypto(commit);
    if commands == [] {
      EmptyTotal(asset, accounts);
    } else {
      var init, last := commands[..|commands| - 1], commands[|commands| - 1];
      var s := RunCommands(k, InitialState(), init);
      Conservation(commit, init, asset, accounts);
      RunReadable(commit, init);
      StepMeaning(commit, s, last);
      if Apply(k, s, last).Ok? {
        AcceptedDiffer(k, s, last);
        TotalDelta(s.cells, Step(k, s, last).cells, last, asset, accounts);
      } else {
        StepRejected(k, s, last);
      }
    }
  }

  lemma AcceptedDiffer(k: Crypto, s: State, c: Command)
    requires Apply(k, s, c).Ok?
    ensures c.Transfer? ==> c.account != c.receiver
  {
    hide TransferredCells, TransferDerived;
  }

  lemma StepRejected(k: Crypto, s: State, c: Command)
    requires Apply(k, s, c).Err?
    ensures Step(k, s, c) == s
  {
    hide Apply;
  }

  lemma NoVersion(key: Key)
    ensures VersionOf(InitialState().cells, key) == 0
  {
  }

  // A cell's version is the number of accepted commands that touched it.
  lemma {:induction false} VersionsCount(commit: (string, seq<seq<Byte>>) -> Root, commands: seq<Command>, key: Key)
    ensures var k := PlainCrypto(commit);
        VersionOf(RunCommands(k, InitialState(), commands).cells, key) == Touches(k, commands, key)
    decreases |commands|
  {
    hide Step, PlainCrypto, Apply, Touched, VersionOf, InitialState, BalanceOf, Readable, Delta;
    var k := PlainCrypto(commit);
    if commands == [] {
      NoVersion(key);
    } else {
      var init, last := commands[..|commands| - 1], commands[|commands| - 1];
      VersionsCount(commit, init, key);
      RunReadable(commit, init);
      StepMeaning(commit, RunCommands(k, InitialState(), init), last);
    }
  }

  // ---- single use of ids, for any backend ----

  function Used(s: State, c: Command): (ids: set<Id>) {
    match c
    case Deposit(_, _, _, _, _) => s.deposits
    case Withdrawal(_, _, _, _, _) => s.nullifiers
    case Transfer(_, _, _, _, _, _) => s.transfers
  }

  predicate SameKind(a: Command, b: Command) {
    a.Deposit? == b.Deposit? && a.Withdrawal? == b.Withdrawal? && a.Transfer? == b.Transfer?
  }

  lemma StepMarks(k: Crypto, s: State, c: Command, other: Command)
    ensures Apply(k, s, c).Ok? ==> c.id !in Used(s, c) && c.id in Used(Step(k, s, c), c)
    ensures Used(s, other) <= Used(Step(k, s, c), other)
  {
    hide CreditedCell, DebitedCell, TransferredCells, NextRecord, TransferDerived;
  }

  lemma {:induction false} MarksStay(k: Crypto, commands: seq<Command>, i: nat, j: nat, c: Command)
    requires i <= j <= |commands|
    ensures Used(RunCommands(k, InitialState(), commands[..i]),
        c) <= Used(RunCommands(k, InitialState(), commands[..j]), c)
    decreases j
  {
    hide Step, Used;
    if i < j {
      MarksStay(k, commands, i, j - 1, c);
      assert commands[..j][..j - 1] == commands[..j - 1];
      StepMarks(k, RunCommands(k, InitialState(), commands[..j - 1]), commands[j - 1], c);
    }
  }

  // Each deposit, nullifier and transfer id is accepted at most once.
  lemma AcceptedOnce(k: Crypto, commands: seq<Command>, i: nat, j: nat)
    requires i < j < |commands| && Accepted(k, commands, i) && Accepted(k, commands, j)
    ensures SameKind(commands[i], commands[j]) ==> commands[i].id != commands[j].id
  {
    hide Apply, Step;
    assert commands[..i + 1][..i] == commands[..i];
    StepMarks(k, RunCommands(k, InitialState(), commands[..i]), commands[i], commands[i]);
    MarksStay(k, commands, i + 1, j, commands[i]);
    StepMarks(k, RunCommands(k, InitialState(), commands[..j]), commands[j], commands[j]);
  }

  // ---- the root ----

  // The cells written by the accepted commands, in order.
  function Written(k: Crypto, commands: seq<Command>): (w: seq<(Key, seq<Byte>, nat)>)
    decreases |commands|
  {
    if commands == [] then []
    else
      var n := |commands| - 1;
      var last := commands[n];
      var t := RunCommands(k, InitialState(), commands).cells;
      Written(k, commands[..n])
      + (if !Accepted(k, commands, n) then [] else [CellWrite(t, Cell(last))])
      + (if !Accepted(k, commands, n) || !last.Transfer? then [] else [CellWrite(t, (last.receiver, last.asset))])
  }

  function CellWrite(t: Cells, key: Key): (w: (Key, seq<Byte>, nat)) {
    if key in t then (key, t[key].ciphertext, t[key].version) else (key, [], 0)
  }

  function FoldRoot(k: Crypto, root: Root, w: seq<(Key, seq<Byte>, nat)>): (r: Root) {
    if w == [] then root
    else
      var n := |w| - 1;
      k.commit("PPSC_RUNTIME_STATE_V1", [FoldRoot(k, root, w[..n]), w[n].0.0, w[n].0.1, w[n].1, BigEndian(w[n].2, 8)])
  }

  lemma FoldSnoc(k: Crypto, root: Root, w: seq<(Key, seq<Byte>, nat)>, x: (Key, seq<Byte>, nat))
    ensures FoldRoot(k, root, w + [x]) == k.commit("PPSC_RUNTIME_STATE_V1",
        [FoldRoot(k, root, w), x.0.0, x.0.1, x.1, BigEndian(x.2, 8)])
  {
    hide BigEndian;
    assert (w + [x])[..|w|] == w;
  }

  lemma StepRoot(k: Crypto, s: State, c: Command)
    requires Apply(k, s, c).Ok?
    ensures var t := Step(k, s, c); var a := CellWrite(t.cells, Cell(c));
      var middle := k.commit("PPSC_RUNTIME_STATE_V1", [s.root, a.0.0, a.0.1, a.1, BigEndian(a.2, 8)]);
      t.root == if c.Transfer?
                then var b := CellWrite(t.cells, (c.receiver, c.asset));
                    k.commit("PPSC_RUNTIME_STATE_V1", [middle, b.0.0, b.0.1, b.1, BigEndian(b.2, 8)])
                else middle
  {
    hide CreditedCell, DebitedCell, TransferredCells, BigEndian;
  }

  // The root is the fold of the digest over everything the accepted commands wrote.
  lemma {:induction false} RootFolds(k: Crypto, commands: seq<Command>)
    ensures RunCommands(k, InitialState(), commands).root == FoldRoot(k, ZeroRoot(), Written(k, commands))
    decreases |commands|
  {
    hide Apply, Step, CellWrite, BigEndian;
    if commands != [] {
      var n := |commands| - 1;
      var init, last := commands[..n], commands[n];
      var s := RunCommands(k, InitialState(), init);
      RootFolds(k, init);
      var w, t := Written(k, init), Step(k, s, last).cells;
      if Apply(k, s, last).Ok? {
        StepRoot(k, s, last);
        FoldSnoc(k, ZeroRoot(), w, CellWrite(t, Cell(last)));
        if last.Transfer? {
          FoldSnoc(k, ZeroRoot(), w + [CellWrite(t, Cell(last))], CellWrite(t, (last.receiver, last.asset)));
        } else {
          assert w + [CellWrite(t, Cell(last))] + [] == w + [CellWrite(t, Cell(last))];
        }
      } else {
        StepRejected(k, s, last);
        assert w + [] + [] == w;
      }
    }
  }

  // ---- where the transactional runtime parts from this one ----

  // A deposit and then a withdrawal that uses the deposit's id as its nullifier: accepted in
  // memory, refused by the tables.
  lemma ClashExample(commit: (string, seq<seq<Byte>>) -> Root, id: Id, account: Account, asset: Asset)
    ensures var k := PlainCrypto(commit);
      var first := Deposit(id, account, asset, 5, ZeroRoot());
      var s, t := Step(k, InitialState(), first), PgStep(k, EmptyDatabase(), first);
      var second := Withdrawal(id, account, asset, 5, s.root);
      && Rel(s, t) && Apply(k, s, second).Ok?
      && PgApply(k, t, second) == Err(PersistenceFailure)
  {
    hide PlainCrypto, CreditedCell, DebitedCell, Readable, Ciphertext, BalanceOf, PgApply, Rel, LogInv, BigEndian;
    var k, s0 := PlainCrypto(commit), InitialState();
    var first := Deposit(id, account, asset, 5, ZeroRoot());
    EmptyReadable();
    FreshRelated();
    NoBalance(s0.cells, (account, asset));
    CreditMeaning(commit, s0.cells, (account, asset), 5);
    StepMeaning(commit, s0, first);
    StepRefines(k, s0, EmptyDatabase(), first);
    var s := Step(k, s0, first);
    DebitMeaning(commit, s.cells, (account, asset), 5);
    StepRefines(k, s, PgStep(k, EmptyDatabase(), first), Withdrawal(id, account, asset, 5, s.root));
  }
}
