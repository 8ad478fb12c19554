/** The smart meter's Echonet Lite property list as the coordinator reports
    it, the register map the cumulative sensors build from it, and the
    instantaneous-power reading the power sensor takes from it. */
module EchonetLite {
  import opened Wrappers
  import opened PyFloat

  /** One `{epc, val}` entry of `smart_meter.echonetlite_properties`. */
  datatype Property = Property(epc: int, val: Float)

  const EPC_COEFFICIENT: int := 211
  const EPC_CUMULATIVE_CONSUMED: int := 224
  const EPC_UNIT: int := 225
  const EPC_CUMULATIVE_RETURNED: int := 227
  const EPC_INSTANTANEOUS_POWER: int := 231

  /** The `props` dictionary: EPC to value. */
  type Registers = map<int, Float>

  /** `ps[i]` is the last entry of `ps` with its EPC. */
  ghost predicate IsLastOfItsEpc(ps: seq<Property>, i: int) {
    0 <= i < |ps| && forall j :: i < j < |ps| ==> ps[j].epc != ps[i].epc
  }

  /** The EPCs listed in `ps`. */
  ghost function Epcs(ps: seq<Property>): set<int> {
    set i | 0 <= i < |ps| :: ps[i].epc
  }

  /** `{int(p["epc"]): float(p["val"]) for p in echonetlite_properties}`:
      the keys are exactly the EPCs listed, and a duplicated EPC keeps the
      value of its last entry. */
  function RegisterMap(ps: seq<Property>): (props: Registers)
    ensures props.Keys == Epcs(ps)
    ensures ps != [] ==> props[ps[|ps| - 1].epc] == ps[|ps| - 1].val
  {
    if ps == [] then map[]
    else
      var init := ps[..|ps| - 1];
      var last := ps[|ps| - 1];
      assert Epcs(ps) == Epcs(init) + {last.epc} by {
        assert forall i :: 0 <= i < |init| ==> init[i] == ps[i];
      }
      RegisterMap(init)[last.epc := last.val]
  }

  /** Every EPC's value in the register map is that of its last entry. */
  lemma {:induction false} RegisterMapLastWins(ps: seq<Property>, i: int)
    requires IsLastOfItsEpc(ps, i)
    ensures ps[i].epc in RegisterMap(ps) && RegisterMap(ps)[ps[i].epc] == ps[i].val
  {
    var n := |ps| - 1;
    if i < n {
      var init := ps[..n];
      assert init[i] == ps[i];
      assert IsLastOfItsEpc(init, i) by {
        assert forall j :: i < j < n ==> init[j] == ps[j];
      }
      RegisterMapLastWins(init, i);
    }
  }

  /** `next(p["val"] for p in echonetlite_properties if p["epc"] == 231)`;
      `None` stands for the `StopIteration` raised when no entry has EPC 231. */
  function InstantaneousPower(ps: seq<Property>): (power: Option<Float>)
    ensures power.None? <==> forall i :: 0 <= i < |ps| ==> ps[i].epc != EPC_INSTANTANEOUS_POWER
    ensures power.Some? ==>
      exists i :: 0 <= i < |ps| && ps[i].epc == EPC_INSTANTANEOUS_POWER && ps[i].val == power.value &&
        forall j :: 0 <= j < i ==> ps[j].epc != EPC_INSTANTANEOUS_POWER
  {
    if ps == [] then None
    else if ps[0].epc == EPC_INSTANTANEOUS_POWER then Some(ps[0].val)
    else
      var rest := InstantaneousPower(ps[1..]);
      assert forall i :: 1 <= i < |ps| ==> ps[i] == ps[1..][i - 1];
      rest
  }

  /** Removing an entry that a later entry with the same EPC overrides
      leaves the register map unchanged: duplicates resolve last-wins. */
  lemma ShadowedEntryIsIgnored(ps: seq<Property>, i: nat, j: nat)
    requires i < j < |ps| && ps[i].epc == ps[j].epc
    ensures RegisterMap(ps[..i] + ps[i + 1..]) == RegisterMap(ps)
  {
    var qs := ps[..i] + ps[i + 1..];
    var m, n := RegisterMap(qs), RegisterMap(ps);
    EpcsAfterRemoval(ps, qs, i, j);
    forall k | k in n ensures m[k] == n[k] {
      ValueAfterRemoval(ps, qs, i, j, k);
    }
  }

  lemma EpcsAfterRemoval(ps: seq<Property>, qs: seq<Property>, i: nat, j: nat)
    requires i < j < |ps| && ps[i].epc == ps[j].epc && qs == ps[..i] + ps[i + 1..]
    ensures Epcs(qs) == Epcs(ps)
  {
    forall k | k in Epcs(ps) ensures k in Epcs(qs) {
      var x :| 0 <= x < |ps| && ps[x].epc == k;
      var y := if x < i then x else if x == i then j - 1 else x - 1;
      RemovedAt(ps, i, y);
    }
    forall k | k in Epcs(qs) ensures k in Epcs(ps) {
      var y :| 0 <= y < |qs| && qs[y].epc == k;
      RemovedAt(ps, i, y);
    }
  }

  lemma ValueAfterRemoval(ps: seq<Property>, qs: seq<Property>, i: nat, j: nat, k: int)
    requires i < j < |ps| && ps[i].epc == ps[j].epc && qs == ps[..i] + ps[i + 1..]
    requires k in Epcs(ps)
    ensures k in RegisterMap(qs) && RegisterMap(qs)[k] == RegisterMap(ps)[k]
  {
    var x := LastIndexOf(ps, k);
    RegisterMapLastWins(ps, x);
    var y := if x < i then x else x - 1;
    RemovedAt(ps, i, y);
    forall z | y < z < |qs| ensures qs[z].epc != qs[y].epc {
      RemovedAt(ps, i, z);
    }
    RegisterMapLastWins(qs, y);
  }

  /** Where entry `y` of `ps` with entry `i` removed comes from. */
  lemma RemovedAt(ps: seq<Property>, i: nat, y: nat)
    requires i < |ps| && y < |ps| - 1
    ensures (ps[..i] + ps[i + 1..])[y] == ps[if y < i then y else y + 1]
  {
  }

  /** The index of the last entry with EPC `k`, for an EPC that occurs. */
  lemma {:induction false} LastIndexOf(ps: seq<Property>, k: int) returns (x: nat)
    requires exists i :: 0 <= i < |ps| && ps[i].epc == k
    ensures IsLastOfItsEpc(ps, x) && ps[x].epc == k
  {
    var n := |ps| - 1;
    if ps[n].epc == k {
      x := n;
    } else {
      var init := ps[..n];
      var i :| 0 <= i < |ps| && ps[i].epc == k;
      assert init[i].epc == k;
      x := LastIndexOf(init, k);
      assert forall y :: x < y < n ==> ps[y] == init[y];
    }
  }
}
