/** Reference counting in a 32-bit atomic counter, shared by any number of holders. */
module RefCount {
  const WIDTH := 0x1_0000_0000

  /**
   * `held` has one entry per outstanding reference, naming its holder.  The
   * counter is kept modulo its width; `born` tells that a first reference was taken.
   */
  datatype State = State(count: nat, held: multiset<nat>, born: bool, deletions: nat) {
    predicate HasOneRef() {
      count == 1
    }

    predicate HasAtLeastOneRef() {
      count != 0
    }
  }

  const INITIAL := State(0, multiset{}, false, 0)

  datatype Action =
    | AddRef(holder: nat, to: nat)  // a holder makes a copy, for itself or for another
    | Give(holder: nat, to: nat)    // a holder hands its reference over, uncounted
    | Release(holder: nat)

  /** Callers only act through references they hold; the creator takes the first one. */
  predicate Enabled(s: State, a: Action) {
    match a
    case AddRef(h, _) => h in s.held || !s.born
    case Give(h, _) => h in s.held
    case Release(h) => h in s.held
  }

  function Increment(count: nat): nat {
    (count + 1) % WIDTH
  }

  function Decrement(count: nat): nat {
    (count + WIDTH - 1) % WIDTH
  }

  function Perform(s: State, a: Action): State {
    match a
    case AddRef(_, to) => s.(count := Increment(s.count), held := s.held + multiset{to}, born := true)
    case Give(h, to) => s.(held := s.held - multiset{h} + multiset{to})
    case Release(h) =>
      var count := Decrement(s.count);
      s.(count := count, held := s.held - multiset{h}, deletions := s.deletions + if count == 0 then 1 else 0)
  }

  /** A schedule of such calls during which at most `bound` references are outstanding. */
  predicate Schedule(s: State, actions: seq<Action>, bound: nat)
    decreases |actions|
  {
    && |s.held| <= bound
    && (actions == [] || (Enabled(s, actions[0]) && Schedule(Perform(s, actions[0]), actions[1..], bound)))
  }

  function Final(s: State, actions: seq<Action>): State
    decreases |actions|
  {
    if actions == [] then s else Final(Perform(s, actions[0]), actions[1..])
  }

  // ----- the classes

  class RefCounted {
    var refCount: nat
    var deletions: nat        // how often delete ran on the object
    ghost var held: multiset<nat>
    ghost var born: bool

    ghost function View(): State
      reads this
    {
      State(refCount, held, born, deletions)
    }

    constructor ()
      ensures View() == INITIAL
    {
      refCount, deletions, held, born := 0, 0, multiset{}, false;
    }

    method AddRef(ghost holder: nat, ghost to: nat)
      requires Enabled(View(), Action.AddRef(holder, to))
      modifies this
      ensures View() == Perform(old(View()), Action.AddRef(holder, to))
    {
      refCount := (refCount + 1) % WIDTH;
      held, born := held + multiset{to}, true;
    }

    method Release(ghost holder: nat) returns (gone: bool)
      requires Enabled(View(), Action.Release(holder))
      modifies this
      ensures View() == Perform(old(View()), Action.Release(holder))
      ensures gone <==> deletions == old(deletions) + 1
    {
      refCount := (refCount + WIDTH - 1) % WIDTH;
      held := held - multiset{holder};
      if refCount == 0 {
        deletions := deletions + 1;
        return true;
      }
      return false;
    }

    predicate HasOneRef(): (answer: bool)
      reads this
      ensures answer <==> View().HasOneRef()
    {
      refCount == 1
    }

    predicate HasAtLeastOneRef(): (answer: bool)
      reads this
      ensures answer <==> View().HasAtLeastOneRef()
    {
      !(refCount == 0)
    }
  }

  // ----- safety

  /** The counter counts, and the object is gone exactly when its last reference went, once. */
  ghost predicate Counted(s: State) {
    && s.count == |s.held| % WIDTH
    && (!s.born ==> s.held == multiset{})
    && s.deletions == (if s.born && s.held == multiset{} then 1 else 0)
  }

  lemma ModularCount(n: nat)
    ensures Increment(n % WIDTH) == (n + 1) % WIDTH
    ensures n >= 1 ==> Decrement(n % WIDTH) == (n - 1) % WIDTH
  {
  }

  lemma ReleaseCounted(s: State, holder: nat)
    requires Counted(s) && holder in s.held && |s.held| <= WIDTH
    ensures Counted(Perform(s, Release(holder)))
  {
    ModularCount(|s.held|);
    var held := s.held - multiset{holder};
    assert |held| == |s.held| - 1;
    assert held == multiset{} <==> |held| == 0;
  }

  lemma StepCounted(s: State, a: Action)
    requires Counted(s) && Enabled(s, a) && |s.held| <= WIDTH
    ensures Counted(Perform(s, a))
  {
    match a
    case AddRef(_, to) =>
      ModularCount(|s.held|);
      assert to in Perform(s, a).held;
    case Give(h, to) =>
      assert to in Perform(s, a).held;
      assert |s.held - multiset{h} + multiset{to}| == |s.held|;
    case Release(h) => ReleaseCounted(s, h);
  }

  /** Nobody can act on a deleted object. */
  lemma DeletedIsDead(s: State, a: Action)
    requires Counted(s) && s.deletions > 0
    ensures !Enabled(s, a)
  {
  }

  lemma {:induction false} StaysCounted(s: State, actions: seq<Action>)
    requires Counted(s) && Schedule(s, actions, WIDTH)
    ensures Counted(Final(s, actions)) && |Final(s, actions).held| <= WIDTH
    decreases |actions|
  {
    if actions != [] {
      StepCounted(s, actions[0]);
      StaysCounted(Perform(s, actions[0]), actions[1..]);
    }
  }

  /**
   * In every schedule with at most 2^32 references outstanding the object is
   * deleted exactly when the last one goes, exactly once, and never while one
   * is held.  The count is their number below 2^32, and 0 when there are 2^32.
   */
  lemma CountedRun(actions: seq<Action>)
    requires Schedule(INITIAL, actions, 0x1_0000_0000)
    ensures var s := Final(INITIAL, actions);
      && |s.held| <= 0x1_0000_0000
      && s.count == (if |s.held| == 0x1_0000_0000 then 0 else |s.held|)
      && s.deletions == (if s.born && s.held == multiset{} then 1 else 0)
  {
    StaysCounted(INITIAL, actions);
  }

  /** The object was deleted at most once, and nobody holds it. */
  ghost predicate Safe(s: State) {
    s.deletions <= 1 && (s.deletions > 0 ==> s.held == multiset{})
  }

  function Copies(n: nat): seq<Action> {
    seq(n, _ => AddRef(0, 0))
  }

  lemma {:induction false} Narrower(s: State, actions: seq<Action>, bound: nat, wider: nat)
    requires Schedule(s, actions, bound) && bound <= wider
    ensures Schedule(s, actions, wider)
    decreases |actions|
  {
    if actions != [] {
      Narrower(Perform(s, actions[0]), actions[1..], bound, wider);
    }
  }

  /** Taking n more copies and then releasing one. */
  lemma {:induction false} GrowThenRelease(s: State, n: nat)
    requires s.count == |s.held| % WIDTH && s.held == multiset{}[0 := |s.held|] && (s.held == multiset{} ==> !s.born)
    requires |s.held| + n == WIDTH + 1
    ensures Schedule(s, Copies(n) + [Release(0)], WIDTH + 1)
    ensures var end := Final(s, Copies(n) + [Release(0)]); end.deletions == s.deletions + 1 && |end.held| == WIDTH
    decreases n
  {
    if n == 0 {
      assert Copies(0) + [Release(0)] == [Release(0)];
      var end := Perform(s, Release(0));
      assert |end.held| == WIDTH && end.count == 0;
      assert Schedule(end, [], WIDTH + 1);
      assert [Release(0)][1..] == [];
    } else {
      var next := Perform(s, AddRef(0, 0));
      assert next.held == multiset{}[0 := |s.held| + 1];
      assert (Copies(n) + [Release(0)])[1..] == Copies(n - 1) + [Release(0)];
      GrowThenRelease(next, n - 1);
    }
  }

  /**
   * The discipline alone is not enough: schedules with up to `bound` outstanding
   * references are all safe exactly when bound does not exceed the counter's width.
   */
  lemma SafeIffNarrow(bound: nat)
    ensures (forall actions :: Schedule(INITIAL, actions, bound) ==> Safe(Final(INITIAL, actions)))
      <==> bound <= 0x1_0000_0000
  {
    if bound <= WIDTH {
      forall actions | Schedule(INITIAL, actions, bound)
        ensures Safe(Final(INITIAL, actions))
      {
        Narrower(INITIAL, actions, bound, WIDTH);
        StaysCounted(INITIAL, actions);
      }
    } else {
      var actions := Copies(WIDTH + 1) + [Release(0)];
      GrowThenRelease(INITIAL, WIDTH + 1);
      Narrower(INITIAL, actions, WIDTH + 1, bound);
      assert !Safe(Final(INITIAL, actions));
    }
  }

  /** HasOneRef tells a holder whether it is alone. */
  lemma OneRefMeansAlone(actions: seq<Action>, holder: nat)
    requires Schedule(INITIAL, actions, WIDTH) && holder in Final(INITIAL, actions).held
    ensures var s := Final(INITIAL, actions); s.HasOneRef() <==> s.held == multiset{holder}
  {
    CountedRun(actions);
    var held := Final(INITIAL, actions).held;
    if Final(INITIAL, actions).HasOneRef() {
      assert |held - multiset{holder}| == 0;
      assert held == (held - multiset{holder}) + multiset{holder};
    }
  }

  /** HasAtLeastOneRef tells whether any reference is out, unless all 2^32 are. */
  lemma AtLeastOneRefIff(actions: seq<Action>)
    requires Schedule(INITIAL, actions, WIDTH)
    ensures var s := Final(INITIAL, actions);
      s.HasAtLeastOneRef() <==> s.held != multiset{} && |s.held| != 0x1_0000_0000
  {
    CountedRun(actions);
    var held := Final(INITIAL, actions).held;
    assert held == multiset{} <==> |held| == 0;
  }
}
