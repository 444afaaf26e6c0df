/** The in-memory cell store, and executing a function against it. */
module StateStore {
  import opened Wrappers
  import opened Bytes
  import opened Manifests
  import opened Executor

  type Cell = (string, seq<Byte>)

  type Cells = map<Cell, Value>

  function LoadFrom(cells: Cells): (load: Loader) {
    (s: string, k: seq<Byte>) => if (s, k) in cells then Ok(cells[(s, k)]) else Err(StateNotFound)
  }

  // The cells after the first k writes, applied in order.
  function CommitTo(cells: Cells, writes: seq<StateWrite>, k: nat): (after: Cells)
    requires k <= |writes|
  {
    if k == 0 then cells
    else CommitTo(cells, writes, k - 1)[(writes[k - 1].state, writes[k - 1].key) := writes[k - 1].value]
  }

  function Commit(cells: Cells, writes: seq<StateWrite>): (after: Cells) { CommitTo(cells, writes, |writes|) }

  predicate Writes(writes: seq<StateWrite>, c: Cell) {
    exists i :: 0 <= i < |writes| && (writes[i].state, writes[i].key) == c
  }

  // Cells that are not written keep their values.
  lemma {:induction false} CommitKeeps(cells: Cells, writes: seq<StateWrite>, k: nat, c: Cell)
    requires k <= |writes| && forall i :: 0 <= i < k ==> (writes[i].state, writes[i].key) != c
    ensures (c in CommitTo(cells, writes, k) <==> c in cells)
        && (c in cells ==> CommitTo(cells, writes, k)[c] == cells[c])
  {
    if k > 0 {
      CommitKeeps(cells, writes, k - 1, c);
    }
  }

  // The last write to a cell decides it.
  lemma {:induction false} CommitLast(cells: Cells, writes: seq<StateWrite>, k: nat, i: nat)
    requires i < k <= |writes|
    requires forall j :: i < j < k ==> (writes[j].state, writes[j].key) != (writes[i].state, writes[i].key)
    ensures var c := (writes[i].state, writes[i].key);
        c in CommitTo(cells, writes, k) && CommitTo(cells, writes, k)[c] == writes[i].value
  {
    if i < k - 1 {
      CommitLast(cells, writes, k - 1, i);
    }
  }

  lemma {:induction false} CommitPrefix(cells: Cells, writes: seq<StateWrite>, more: seq<StateWrite>, k: nat)
    requires k <= |more|
    ensures CommitTo(cells, writes + more, |writes| + k) == CommitTo(Commit(cells, writes), more, k)
  {
    if k > 0 {
      CommitPrefix(cells, writes, more, k - 1);
    } else {
      CommitSame(cells, writes, writes + more, |writes|);
    }
  }

  lemma {:induction false} CommitSame(cells: Cells, a: seq<StateWrite>, b: seq<StateWrite>, k: nat)
    requires k <= |a| && k <= |b| && forall i :: 0 <= i < k ==> a[i] == b[i]
    ensures CommitTo(cells, a, k) == CommitTo(cells, b, k)
  {
    if k > 0 {
      CommitSame(cells, a, b, k - 1);
    }
  }

  // The outcome of executing a manifest function: evaluation, then the commit of its write set.
  function ExecuteOn(m: ContractManifest, name: string, backend: Backend, inv: Invocation, cells: Cells)
    : (r: (Result<Outcome, RuntimeError>, Cells))
  {
    var outcome := Evaluate(m, name, World(LoadFrom(cells), backend), inv);
    (outcome, if outcome.Ok? then Commit(cells, outcome.value.writes) else cells)
  }

  class InMemoryManifestState {
    var cells: Cells

    constructor ()
      ensures cells == map[]
    {
      cells := map[];
    }

    method Initialize(state: string, key: seq<Byte>, value: Value)
      modifies this
      ensures cells == old(cells)[(state, key) := value]
    {
      cells := cells[(state, key) := value];
    }

    method Load(state: string, key: seq<Byte>) returns (r: Result<Value, RuntimeError>)
      ensures r == LoadFrom(cells)(state, key)
    {
      if (state, key) in cells { return Ok(cells[(state, key)]); }
      return Err(StateNotFound);
    }

    method CommitWrites(writes: seq<StateWrite>)
      modifies this
      ensures cells == Commit(old(cells), writes)
    {
      for i := 0 to |writes|
        invariant cells == CommitTo(old(cells), writes, i)
      {
        cells := cells[(writes[i].state, writes[i].key) := writes[i].value];
      }
    }

    // Evaluate, then commit everything or nothing.
    method Execute(m: ContractManifest, name: string, backend: Backend, inv: Invocation)
      returns (r: Result<Outcome, RuntimeError>)
      modifies this
      ensures (r, cells) == ExecuteOn(m, name, backend, inv, old(cells))
    {
      hide EvaluateFunction, Commit;
      var f := FindFunction(m.functions, name);
      if f.None? { return Err(FunctionNotFound); }
      r := EvaluateLoop(m.state, f.value, World(LoadFrom(cells), backend), inv);
      if r.Ok? {
        CommitWrites(r.value.writes);
      }
    }
  }
}
