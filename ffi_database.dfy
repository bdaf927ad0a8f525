/**
 * The sparse point database of the C binding's server: per unit, four maps
 * from address to value. A point exists only once the foreign program has
 * added it; an update changes a point that exists and never creates one.
 */
module FfiDatabase {
  import opened Num

  /** `add_entry`: stores the value only at an address that has none; an existing value is kept. */
  function AddEntry<T>(m: map<u16, T>, index: u16, value: T): (r: (map<u16, T>, bool))
    ensures r.1 <==> index !in m
    ensures r.1 ==> r.0 == m[index := value]
    ensures !r.1 ==> r.0 == m
  {
    if index !in m then (m[index := value], true) else (m, false)
  }

  /** `update_entry`: replaces the value only at an address that has one; it never creates an entry. */
  function UpdateEntry<T>(m: map<u16, T>, index: u16, value: T): (r: (map<u16, T>, bool))
    ensures r.1 <==> index in m
    ensures r.0.Keys == m.Keys
    ensures r.1 ==> r.0 == m[index := value]
    ensures !r.1 ==> r.0 == m
  {
    if index in m then (m[index := value], true) else (m, false)
  }

  /** Add and update together: an add followed by an update of the same address always succeeds, and the update wins. */
  lemma AddThenUpdate<T>(m: map<u16, T>, index: u16, first: T, second: T)
    ensures var (m1, _) := AddEntry(m, index, first);
            var (m2, ok) := UpdateEntry(m1, index, second);
            ok && m2[index] == second && m2.Keys == m.Keys + {index}
  {
  }

  /** The four maps of one unit. */
  datatype Tables = Tables(coils: map<u16, bool>, discreteInputs: map<u16, bool>,
                           holdingRegisters: map<u16, u16>, inputRegisters: map<u16, u16>)

  function Empty(): Tables {
    Tables(map[], map[], map[], map[])
  }

  /** What a foreign program can do to a database: the eight add and update functions. */
  datatype Edit =
    | AddCoil(index: u16, bit: bool)
    | AddDiscreteInput(index: u16, bit: bool)
    | AddHoldingRegister(index: u16, word: u16)
    | AddInputRegister(index: u16, word: u16)
    | UpdateCoil(index: u16, bit: bool)
    | UpdateDiscreteInput(index: u16, bit: bool)
    | UpdateHoldingRegister(index: u16, word: u16)
    | UpdateInputRegister(index: u16, word: u16)
  {
    predicate IsAdd() {
      AddCoil? || AddDiscreteInput? || AddHoldingRegister? || AddInputRegister?
    }
  }

  /** One of the eight functions on an existing database: its result and the new maps. */
  function Apply(t: Tables, e: Edit): (r: (Tables, bool))
    ensures e.AddCoil? || e.UpdateCoil? || r.0.coils == t.coils
    ensures e.AddDiscreteInput? || e.UpdateDiscreteInput? || r.0.discreteInputs == t.discreteInputs
    ensures e.AddHoldingRegister? || e.UpdateHoldingRegister? || r.0.holdingRegisters == t.holdingRegisters
    ensures e.AddInputRegister? || e.UpdateInputRegister? || r.0.inputRegisters == t.inputRegisters
  {
    match e
    case AddCoil(i, v) => var (m, ok) := AddEntry(t.coils, i, v); (t.(coils := m), ok)
    case AddDiscreteInput(i, v) => var (m, ok) := AddEntry(t.discreteInputs, i, v); (t.(discreteInputs := m), ok)
    case AddHoldingRegister(i, v) => var (m, ok) := AddEntry(t.holdingRegisters, i, v); (t.(holdingRegisters := m), ok)
    case AddInputRegister(i, v) => var (m, ok) := AddEntry(t.inputRegisters, i, v); (t.(inputRegisters := m), ok)
    case UpdateCoil(i, v) => var (m, ok) := UpdateEntry(t.coils, i, v); (t.(coils := m), ok)
    case UpdateDiscreteInput(i, v) => var (m, ok) := UpdateEntry(t.discreteInputs, i, v); (t.(discreteInputs := m), ok)
    case UpdateHoldingRegister(i, v) => var (m, ok) := UpdateEntry(t.holdingRegisters, i, v); (t.(holdingRegisters := m), ok)
    case UpdateInputRegister(i, v) => var (m, ok) := UpdateEntry(t.inputRegisters, i, v); (t.(inputRegisters := m), ok)
  }

  /** Every address of `a` is still present in `b`, in each of the four maps. */
  predicate KeysGrow(a: Tables, b: Tables) {
    a.coils.Keys <= b.coils.Keys && a.discreteInputs.Keys <= b.discreteInputs.Keys
    && a.holdingRegisters.Keys <= b.holdingRegisters.Keys && a.inputRegisters.Keys <= b.inputRegisters.Keys
  }

  predicate SameKeys(a: Tables, b: Tables) {
    a.coils.Keys == b.coils.Keys && a.discreteInputs.Keys == b.discreteInputs.Keys
    && a.holdingRegisters.Keys == b.holdingRegisters.Keys && a.inputRegisters.Keys == b.inputRegisters.Keys
  }

  /** The edits of a callback, one after the other. */
  function ApplyAll(t: Tables, edits: seq<Edit>): Tables
    decreases |edits|
  {
    if edits == [] then t else ApplyAll(Apply(t, edits[0]).0, edits[1..])
  }

  /** No edit ever removes a point: a point the server could read before, it can read afterwards. */
  lemma {:induction false} ApplyAllKeepsPoints(t: Tables, edits: seq<Edit>)
    ensures KeysGrow(t, ApplyAll(t, edits))
    decreases |edits|
  {
    if edits != [] {
      ApplyAllKeepsPoints(Apply(t, edits[0]).0, edits[1..]);
    }
  }

  /** A callback that only updates never makes a new point readable. */
  lemma {:induction false} UpdatesKeepAddresses(t: Tables, edits: seq<Edit>)
    requires forall k :: 0 <= k < |edits| ==> !edits[k].IsAdd()
    ensures SameKeys(t, ApplyAll(t, edits))
    decreases |edits|
  {
    if edits != [] {
      UpdatesKeepAddresses(Apply(t, edits[0]).0, edits[1..]);
    }
  }

  /** `Database`: the four maps of one unit, changed in place by the eight functions. */
  class Database {
    var coils: map<u16, bool>
    var discreteInputs: map<u16, bool>
    var holdingRegisters: map<u16, u16>
    var inputRegisters: map<u16, u16>

    function Contents(): Tables
      reads this
    {
      Tables(coils, discreteInputs, holdingRegisters, inputRegisters)
    }

    /** `new`: four empty maps. */
    constructor ()
      ensures Contents() == Empty()
    {
      coils := map[];
      discreteInputs := map[];
      holdingRegisters := map[];
      inputRegisters := map[];
    }

    /** Carries out one edit on this database. */
    method Perform(e: Edit) returns (ok: bool)
      modifies this
      ensures (Contents(), ok) == Apply(old(Contents()), e)
    {
      var (t, done) := Apply(Contents(), e);
      coils, discreteInputs, holdingRegisters, inputRegisters := t.coils, t.discreteInputs, t.holdingRegisters, t.inputRegisters;
      ok := done;
    }

    /** Carries out a callback's edits in order. */
    method PerformAll(edits: seq<Edit>)
      modifies this
      ensures Contents() == ApplyAll(old(Contents()), edits)
    {
      var k := 0;
      while k < |edits|
        invariant 0 <= k <= |edits|
        invariant ApplyAll(old(Contents()), edits) == ApplyAll(Contents(), edits[k..])
      {
        assert edits[k..][1..] == edits[k + 1..];
        var _ := Perform(edits[k]);
        k := k + 1;
      }
    }
  }

  /** The eight exported functions: a null database answers false and nothing changes. */
  method DatabaseAddCoil(database: Database?, index: u16, value: bool) returns (ok: bool)
    modifies database
    ensures database == null ==> !ok
    ensures database != null ==> (database.Contents(), ok) == Apply(old(database.Contents()), AddCoil(index, value))
  {
    ok := false;
    if database != null {
      ok := database.Perform(AddCoil(index, value));
    }
  }

  method DatabaseAddDiscreteInput(database: Database?, index: u16, value: bool) returns (ok: bool)
    modifies database
    ensures database == null ==> !ok
    ensures database != null ==> (database.Contents(), ok) == Apply(old(database.Contents()), AddDiscreteInput(index, value))
  {
    ok := false;
    if database != null {
      ok := database.Perform(AddDiscreteInput(index, value));
    }
  }

  method DatabaseAddHoldingRegister(database: Database?, index: u16, value: u16) returns (ok: bool)
    modifies database
    ensures database == null ==> !ok
    ensures database != null ==> (database.Contents(), ok) == Apply(old(database.Contents()), AddHoldingRegister(index, value))
  {
    ok := false;
    if database != null {
      ok := database.Perform(AddHoldingRegister(index, value));
    }
  }

  method DatabaseAddInputRegister(database: Database?, index: u16, value: u16) returns (ok: bool)
    modifies database
    ensures database == null ==> !ok
    ensures database != null ==> (database.Contents(), ok) == Apply(old(database.Contents()), AddInputRegister(index, value))
  {
    ok := false;
    if database != null {
      ok := database.Perform(AddInputRegister(index, value));
    }
  }

  method DatabaseUpdateCoil(database: Database?, index: u16, value: bool) returns (ok: bool)
    modifies database
    ensures database == null ==> !ok
    ensures database != null ==> (database.Contents(), ok) == Apply(old(database.Contents()), UpdateCoil(index, value))
  {
    ok := false;
    if database != null {
      ok := database.Perform(UpdateCoil(index, value));
    }
  }

  method DatabaseUpdateDiscreteInput(database: Database?, index: u16, value: bool) returns (ok: bool)
    modifies database
    ensures database == null ==> !ok
    ensures database != null ==> (database.Contents(), ok) == Apply(old(database.Contents()), UpdateDiscreteInput(index, value))
  {
    ok := false;
    if database != null {
      ok := database.Perform(UpdateDiscreteInput(index, value));
    }
  }

  method DatabaseUpdateHoldingRegister(database: Database?, index: u16, value: u16) returns (ok: bool)
    modifies database
    ensures database == null ==> !ok
    ensures database != null ==> (database.Contents(), ok) == Apply(old(database.Contents()), UpdateHoldingRegister(index, value))
  {
    ok := false;
    if database != null {
      ok := database.Perform(UpdateHoldingRegister(index, value));
    }
  }

  method DatabaseUpdateInputRegister(database: Database?, index: u16, value: u16) returns (ok: bool)
    modifies database
    ensures database == null ==> !ok
    ensures database != null ==> (database.Contents(), ok) == Apply(old(database.Contents()), UpdateInputRegister(index, value))
  {
    ok := false;
    if database != null {
      ok := database.Perform(UpdateInputRegister(index, value));
    }
  }

  /** A fresh database: adding a coil succeeds once, a second add of the same address is refused and keeps the first value. */
  method AddTwice() returns (first: bool, second: bool, value: bool)
    ensures first && !second && value
  {
    var database := new Database();
    first := DatabaseAddCoil(database, 7, true);
    second := DatabaseAddCoil(database, 7, false);
    value := database.coils[7];
  }

  /** Updating an address never added is refused and creates nothing. */
  method UpdateWithoutAdd() returns (ok: bool, present: bool)
    ensures !ok && !present
  {
    var database := new Database();
    ok := DatabaseUpdateHoldingRegister(database, 3, 42);
    present := 3 in database.holdingRegisters;
  }
}
