/**
 * Counters that several threads increment without a lock, as the host's threads do with tx_frames and timeouts
 * (src/host/udf_host.py:98-126): `x += 1` is a load and, later, a store.
 */
module Counters {
  import opened Base

  /** A thread between its load and its store knows the value it loaded; `at` is history: the stores made until then. */
  datatype Loaded = Loaded(value: nat, at: nat)

  /** `stores` and `clean` are history: increments completed, and whether none came between another's load and store. */
  datatype Counter = Counter(value: nat, slots: seq<Option<Loaded>>, stores: nat, clean: bool)

  datatype Label = Load(p: nat) | Store(p: nat)

  function Zero(k: nat): Counter { Counter(0, seq(k, i => None), 0, true) }

  function Do(c: Counter, l: Label): Counter {
    if l.p >= |c.slots| then c
    else match l
      case Load(p) =>
        if c.slots[p] != None then c else c.(slots := c.slots[p := Some(Loaded(c.value, c.stores))])
      case Store(p) =>
        if c.slots[p] == None then c
        else
          var x := c.slots[p].value;
          Counter(x.value + 1, c.slots[p := None], c.stores + 1, c.clean && x.at == c.stores)
  }

  function End(k: nat, ls: seq<Label>): Counter {
    if ls == [] then Zero(k) else Do(End(k, ls[..|ls| - 1]), ls[|ls| - 1])
  }

  predicate SlotOk(c: Counter, x: Loaded) {
    && x.value <= x.at <= c.stores
    && (c.clean ==> x.value == x.at)
    && (x.at == c.stores ==> x.value == c.value)
  }

  predicate Sound(c: Counter) {
    && c.value <= c.stores && (c.clean <==> c.value == c.stores)
    && forall p :: 0 <= p < |c.slots| && c.slots[p].Some? ==> SlotOk(c, c.slots[p].value)
  }

  lemma StepSound(c: Counter, l: Label)
    requires Sound(c)
    ensures Sound(Do(c, l))
  {
    var d := Do(c, l);
    forall q | 0 <= q < |d.slots| && d.slots[q].Some? ensures SlotOk(d, d.slots[q].value) {
      if c.slots[q].Some? {
        assert SlotOk(c, c.slots[q].value);
      }
    }
  }

  lemma {:induction false} EndSound(k: nat, ls: seq<Label>)
    ensures Sound(End(k, ls))
  {
    if ls != [] {
      EndSound(k, ls[..|ls| - 1]);
      StepSound(End(k, ls[..|ls| - 1]), ls[|ls| - 1]);
    }
  }

  /**
   * The counter never exceeds the increments made, and equals them exactly when no thread's store ever came between
   * another thread's load and store.
   */
  lemma CountsIff(k: nat, ls: seq<Label>)
    ensures var c := End(k, ls);
            c.value <= c.stores && (c.value == c.stores <==> c.clean)
  {
    EndSound(k, ls);
  }

  /** Two threads can lose one of two increments. */
  lemma LostUpdate() returns (ls: seq<Label>)
    ensures ls == [Load(0), Load(1), Store(0), Store(1)]
    ensures End(2, ls).value == 1 && End(2, ls).stores == 2
  {
    ls := [Load(0), Load(1), Store(0), Store(1)];
    var a, b, c := ls[..3], ls[..2], ls[..1];
    assert a[..2] == b && b[..1] == c && c[..0] == [];
    var c1 := Do(Zero(2), Load(0));
    var c2 := Do(c1, Load(1));
    var c3 := Do(c2, Store(0));
    assert End(2, c) == c1 && End(2, b) == c2 && End(2, a) == c3;
    assert End(2, ls) == Do(c3, Store(1));
  }
}
