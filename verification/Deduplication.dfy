/**
 * Repair of colliding agent usernames, the step that runs just before the
 * unique index on agents(username) is built.
 */
module Deduplication {
  import opened AgentTable
  import opened FreshNames
  import Decimal

  datatype Dup = Dup(id: string, username: string)

  /** Row i is the lowest-rowid row of its username group. */
  predicate IsKeeper(t: seq<AgentRow>, i: nat)
    requires i < |t|
  {
    forall j :: 0 <= j < i ==> t[j].username != t[i].username
  }

  ghost predicate IsExtra(t: seq<AgentRow>, d: Dup) {
    exists i :: 0 <= i < |t| && !IsKeeper(t, i) && d == Dup(t[i].id, t[i].username)
  }

  /** `dups` is some order of the query that lists every row but the keepers. */
  ghost predicate IsDupListing(t: seq<AgentRow>, dups: seq<Dup>) {
    && (forall a, b :: 0 <= a < b < |dups| ==> dups[a].id != dups[b].id)
    && (forall d :: d in dups ==> IsExtra(t, d))
    && (forall i :: 0 <= i < |t| && !IsKeeper(t, i) ==> Dup(t[i].id, t[i].username) in dups)
  }

  /** `dups` is the listing of the rows at the distinct positions `order`; the rows in `left` are still to come. */
  ghost predicate ListedSoFar(t: seq<AgentRow>, dups: seq<Dup>, order: seq<nat>, left: set<int>) {
    && |dups| == |order|
    && (forall i :: i in left ==> 0 <= i < |t| && !IsKeeper(t, i))
    && (forall a :: 0 <= a < |order| ==> order[a] < |t| && !IsKeeper(t, order[a]) && order[a] !in left)
    && (forall a :: 0 <= a < |order| ==> dups[a] == Dup(t[order[a]].id, t[order[a]].username))
    && (forall a, b :: 0 <= a < b < |order| ==> order[a] != order[b])
    && (forall i :: 0 <= i < |t| && !IsKeeper(t, i) ==> i in left || i in order)
  }

  lemma ListedNext(t: seq<AgentRow>, dups: seq<Dup>, order: seq<nat>, left: set<int>, i: nat)
    requires ListedSoFar(t, dups, order, left) && i in left
    ensures ListedSoFar(t, dups + [Dup(t[i].id, t[i].username)], order + [i], left - {i})
  {
  }

  lemma ListedAll(t: seq<AgentRow>, dups: seq<Dup>, order: seq<nat>)
    requires IdsDistinct(t) && ListedSoFar(t, dups, order, {})
    ensures IsDupListing(t, dups)
  {
    forall i | 0 <= i < |t| && !IsKeeper(t, i)
      ensures Dup(t[i].id, t[i].username) in dups
    {
      var a :| 0 <= a < |order| && order[a] == i;
      assert dups[a] in dups;
    }
  }

  function DupName(base: string, suffix: nat): string {
    base + "_dup" + Decimal.Print(suffix)
  }

  function DupNames(base: string): nat -> string {
    (suffix: nat) => DupName(base, suffix)
  }

  lemma DupNamesInjective(base: string)
    ensures Injective(DupNames(base))
    ensures forall k: nat :: DupNames(base)(k) != base
  {
    forall a: nat, b: nat | DupNames(base)(a) == DupNames(base)(b)
      ensures a == b
    {
      var n := |base + "_dup"|;
      assert DupName(base, a)[n..] == Decimal.Print(a);
      assert DupName(base, b)[n..] == Decimal.Print(b);
      Decimal.PrintInjective(a, b);
    }
    forall k: nat
      ensures DupNames(base)(k) != base
    {
      assert |DupName(base, k)| > |base|;
    }
  }

  /** Where the search for a duplicate's new suffix ends. */
  ghost function FreshSuffix(t: seq<AgentRow>, base: string): (suffix: nat)
    ensures suffix >= 1
  {
    DupNamesInjective(base);
    LeastFree(Usernames(t), DupNames(base), 1)
  }

  /** It is the one positive suffix that is free while all smaller ones are taken. */
  lemma FreshSuffixLeast(t: seq<AgentRow>, base: string, suffix: nat)
    requires suffix >= 1
    ensures suffix == FreshSuffix(t, base) <==>
      && DupName(base, suffix) !in Usernames(t)
      && forall s :: 1 <= s < suffix ==> DupName(base, s) in Usernames(t)
  {
    DupNamesInjective(base);
    assert forall s: nat :: DupNames(base)(s) == DupName(base, s);
    var least := FreshSuffix(t, base);
    assert DupNames(base)(least) !in Usernames(t);
    if least < suffix {
      assert DupName(base, least) !in Usernames(t);
    }
  }

  /** UPDATE agents SET username = name WHERE id = id. */
  function Rename(t: seq<AgentRow>, id: string, name: string): seq<AgentRow> {
    seq(|t|, i requires 0 <= i < |t| => if t[i].id == id then t[i].(username := name) else t[i])
  }

  lemma RenameKeepsIds(t: seq<AgentRow>, id: string, name: string)
    requires IdsDistinct(t)
    ensures IdsDistinct(Rename(t, id, name))
  {
    forall i, j | 0 <= i < j < |t|
      ensures Rename(t, id, name)[i].id != Rename(t, id, name)[j].id
    {
      assert t[i].id != t[j].id;
    }
  }

  ghost function RenameOne(t: seq<AgentRow>, d: Dup): seq<AgentRow> {
    Rename(t, d.id, DupName(d.username, FreshSuffix(t, d.username)))
  }

  /** The table after renaming the listed rows one at a time. */
  ghost function Repair(t: seq<AgentRow>, dups: seq<Dup>): seq<AgentRow>
    decreases |dups|
  {
    if dups == [] then t
    else Repair(RenameOne(t, dups[0]), dups[1..])
  }

  // ----- what one renaming step keeps

  /**
   * `now` is table `t` with only the rows in `todo` still to be renamed: nothing
   * but usernames moved, keepers and pending rows hold their own names, the only
   * names held twice are those of pending rows, and a new name is nobody else's.
   */
  ghost predicate Repairing(t: seq<AgentRow>, now: seq<AgentRow>, todo: seq<Dup>) {
    && |now| == |t|
    && (forall i :: 0 <= i < |t| ==> now[i] == t[i].(username := now[i].username))
    && (forall i :: 0 <= i < |t| && IsKeeper(t, i) ==> now[i] == t[i])
    && (forall i :: 0 <= i < |t| && Dup(t[i].id, t[i].username) in todo ==> now[i] == t[i])
    && (forall i, j :: 0 <= i < j < |t| && now[i].username == now[j].username ==>
          Dup(t[i].id, t[i].username) in todo || Dup(t[j].id, t[j].username) in todo)
    && (forall i :: 0 <= i < |t| && now[i] != t[i] ==> Renamed(t, now, i))
    && (forall i, j :: 0 <= i < |t| && 0 <= j < |t| && i != j && now[i] != t[i] ==> now[i].username != now[j].username)
  }

  /** The base, "_dup", and the decimal notation of a number from 1 up to below the bound. */
  ghost predicate IsDupName(base: string, name: string, bound: int) {
    exists text :: Decimal.IsNumeral(text) && 1 <= Decimal.Value(text) < bound && name == base + "_dup" + text
  }

  lemma DupNameIs(base: string, suffix: nat, bound: int)
    requires 1 <= suffix < bound
    ensures IsDupName(base, DupName(base, suffix), bound)
  {
    Decimal.PrintReads(suffix);
    assert DupName(base, suffix) == base + "_dup" + Decimal.Print(suffix);
  }

  /** Row i was given some _dup name of its own, with a suffix below the row count. */
  ghost predicate Renamed(t: seq<AgentRow>, now: seq<AgentRow>, i: nat)
    requires i < |t| && i < |now|
  {
    IsDupName(t[i].username, now[i].username, |t|)
  }

  /** `todo` is what is left of a duplicate listing of t. */
  ghost predicate IsRemainder(t: seq<AgentRow>, todo: seq<Dup>) {
    && (forall a, b :: 0 <= a < b < |todo| ==> todo[a].id != todo[b].id)
    && (forall d :: d in todo ==> IsExtra(t, d))
  }

  lemma {:induction false} KeeperOf(t: seq<AgentRow>, i: nat) returns (k: nat)
    requires i < |t|
    ensures k <= i && IsKeeper(t, k) && t[k].username == t[i].username
  {
    if IsKeeper(t, i) {
      k := i;
    } else {
      var j :| 0 <= j < i && t[j].username == t[i].username;
      k := KeeperOf(t, j);
    }
  }

  /** Pigeonhole: the search for a duplicate's suffix stops below the row count. */
  lemma SuffixBound(t: seq<AgentRow>, i: nat, j: nat)
    requires i < j < |t| && t[i].username == t[j].username
    ensures 1 <= FreshSuffix(t, t[j].username) <= |t| - 1
  {
    var base := t[j].username;
    DupNamesInjective(base);
    var ahead := Ahead(Usernames(t), DupNames(base), 1);
    SharedNameSavesTwo(t, i, j);
    SubsetSize(ahead, Usernames(t) - {base});
  }

  /** Giving pending row p a name nobody holds takes it off the to-do list. */
  lemma RenamePending(t: seq<AgentRow>, now: seq<AgentRow>, todo: seq<Dup>, p: nat, suffix: nat, next: seq<AgentRow>)
    requires todo != [] && todo[0] !in todo[1..] && Repairing(t, now, todo)
    requires p < |t| && !IsKeeper(t, p) && 1 <= suffix < |t|
    requires forall i :: 0 <= i < |t| && i != p ==> now[i].username != DupName(t[p].username, suffix)
    requires forall i :: 0 <= i < |t| ==> (Dup(t[i].id, t[i].username) == todo[0] <==> i == p)
    requires |next| == |t|
    requires forall i :: 0 <= i < |t| ==>
      next[i] == if i == p then now[p].(username := DupName(t[p].username, suffix)) else now[i]
    ensures Repairing(t, next, todo[1..])
  {
    assert todo == [todo[0]] + todo[1..];
    DupNameIs(t[p].username, suffix, |t|);
  }

  lemma RemainderTail(t: seq<AgentRow>, todo: seq<Dup>)
    requires IsRemainder(t, todo) && todo != []
    ensures IsRemainder(t, todo[1..]) && todo[0] !in todo[1..]
  {
    assert todo == [todo[0]] + todo[1..];
  }

  /** The pending row at the head of the list, and that it shares its name. */
  lemma PendingRow(t: seq<AgentRow>, now: seq<AgentRow>, todo: seq<Dup>) returns (p: nat)
    requires IdsDistinct(t) && IsRemainder(t, todo) && todo != []
    requires Repairing(t, now, todo)
    ensures p < |t| && !IsKeeper(t, p) && todo[0] == Dup(t[p].id, t[p].username) && now[p] == t[p]
    ensures forall i :: 0 <= i < |t| ==> (Dup(t[i].id, t[i].username) == todo[0] <==> i == p)
    ensures FreshSuffix(now, todo[0].username) < |t|
  {
    var d := todo[0];
    assert d in todo && IsExtra(t, d);
    p :| 0 <= p < |t| && !IsKeeper(t, p) && d == Dup(t[p].id, t[p].username);
    var k := KeeperOf(t, p);
    SuffixBound(now, k, p);
  }

  lemma RepairStep(t: seq<AgentRow>, now: seq<AgentRow>, todo: seq<Dup>)
    requires IdsDistinct(t) && IsRemainder(t, todo) && todo != []
    requires Repairing(t, now, todo)
    ensures IsRemainder(t, todo[1..])
    ensures FreshSuffix(now, todo[0].username) < |t|
    ensures Repairing(t, RenameOne(now, todo[0]), todo[1..])
  {
    RemainderTail(t, todo);
    var p := PendingRow(t, now, todo);
    var suffix := FreshSuffix(now, todo[0].username);
    FreshSuffixLeast(now, todo[0].username, suffix);
    forall i | 0 <= i < |t|
      ensures now[i].username != DupName(t[p].username, suffix)
      ensures now[i].id == t[i].id && (now[i].id == todo[0].id <==> i == p)
    {
      assert now[i] in now;
    }
    RenamePending(t, now, todo, p, suffix, RenameOne(now, todo[0]));
  }

  lemma {:induction false} RepairKeeps(t: seq<AgentRow>, now: seq<AgentRow>, todo: seq<Dup>)
    requires IdsDistinct(t) && IsRemainder(t, todo) && Repairing(t, now, todo)
    ensures Repairing(t, Repair(now, todo), [])
    decreases |todo|
  {
    if todo != [] {
      RepairStep(t, now, todo);
      RepairKeeps(t, RenameOne(now, todo[0]), todo[1..]);
    }
  }

  lemma RepairingFromStart(t: seq<AgentRow>, dups: seq<Dup>)
    requires IdsDistinct(t) && IsDupListing(t, dups)
    ensures IsRemainder(t, dups) && Repairing(t, t, dups)
  {
  }

  // ----- main results

  /**
   * For every table and every listing order the repair ends with pairwise
   * distinct usernames.  Only usernames of non-keepers move, each to
   * base_dupN with N below the row count, so the index build cannot fail.
   */
  lemma RepairSound(t: seq<AgentRow>, dups: seq<Dup>)
    requires IdsDistinct(t) && IsDupListing(t, dups)
    ensures var r := Repair(t, dups);
      && UsernamesDistinct(r) && |r| == |t|
      && (forall i :: 0 <= i < |t| ==> r[i] == t[i].(username := r[i].username))
      && (forall i :: 0 <= i < |t| ==> (r[i] == t[i] <==> IsKeeper(t, i)))
      && (forall i :: 0 <= i < |t| && !IsKeeper(t, i) ==> Renamed(t, r, i))
  {
    RepairingFromStart(t, dups);
    RepairKeeps(t, t, dups);
    var r := Repair(t, dups);
    forall i | 0 <= i < |t| && !IsKeeper(t, i)
      ensures r[i] != t[i]
    {
      var k := KeeperOf(t, i);
      assert r[k] == t[k];
    }
  }

  /** The smallest case: of two rows with one username, the second ends with _dup1 appended to it. */
  lemma SecondOfTwo(t: seq<AgentRow>, dups: seq<Dup>)
    requires IdsDistinct(t) && IsDupListing(t, dups)
    requires |t| == 2 && t[0].username == t[1].username
    ensures Repair(t, dups) == [t[0], t[1].(username := t[1].username + "_dup1")]
  {
    RepairSound(t, dups);
    var r := Repair(t, dups);
    assert IsKeeper(t, 0) && !IsKeeper(t, 1);
    var text :|
      Decimal.IsNumeral(text) && 1 <= Decimal.Value(text) < 2 && r[1].username == t[1].username + "_dup" + text;
    OneIsOne(text);
    assert t[1].username + "_dup" + "1" == t[1].username + "_dup1";
  }

  lemma OneIsOne(text: string)
    requires Decimal.IsNumeral(text) && Decimal.Value(text) == 1
    ensures text == "1"
  {
    Decimal.NumeralPositive(text);
    assert text[..0] == "";
  }

  /** A second run finds nothing to rename. */
  lemma RepairIdempotent(t: seq<AgentRow>, dups: seq<Dup>, again: seq<Dup>)
    requires IdsDistinct(t) && IsDupListing(t, dups)
    requires IsDupListing(Repair(t, dups), again)
    ensures again == [] && Repair(Repair(t, dups), again) == Repair(t, dups)
  {
    assert again == [] || again[0] in again;
    RepairSound(t, dups);
  }

  lemma {:induction false} RepairSnoc(t: seq<AgentRow>, dups: seq<Dup>, d: Dup)
    ensures Repair(t, dups + [d]) == RenameOne(Repair(t, dups), d)
    decreases |dups|
  {
    if dups == [] {
      assert Repair(RenameOne(t, d), []) == RenameOne(t, d);
    } else {
      assert (dups + [d])[1..] == dups[1..] + [d];
      RepairSnoc(RenameOne(t, dups[0]), dups[1..], d);
    }
  }

  lemma RepairNext(t: seq<AgentRow>, dups: seq<Dup>, n: nat)
    requires n < |dups|
    ensures Repair(t, dups[..n + 1]) == RenameOne(Repair(t, dups[..n]), dups[n])
  {
    assert dups[..n + 1] == dups[..n] + [dups[n]];
    RepairSnoc(t, dups[..n], dups[n]);
  }

  lemma {:induction false} RepairKeepsIds(t: seq<AgentRow>, dups: seq<Dup>)
    requires IdsDistinct(t)
    ensures IdsDistinct(Repair(t, dups))
    decreases |dups|
  {
    if dups != [] {
      RenameKeepsIds(t, dups[0].id, DupName(dups[0].username, FreshSuffix(t, dups[0].username)));
      RepairKeepsIds(RenameOne(t, dups[0]), dups[1..]);
    }
  }

  lemma RepairPrefix(now: seq<AgentRow>, todo: seq<Dup>, done: nat)
    requires 0 < done <= |todo|
    ensures Repair(now, todo[..done]) == Repair(RenameOne(now, todo[0]), todo[1..][..done - 1])
    ensures todo[1..][done - 1..] == todo[done..]
  {
    assert todo[..done][1..] == todo[1..][..done - 1];
  }

  lemma {:induction false} PartialRepair(t: seq<AgentRow>, now: seq<AgentRow>, todo: seq<Dup>, done: nat)
    requires IdsDistinct(t) && IsRemainder(t, todo) && Repairing(t, now, todo) && done <= |todo|
    ensures IsRemainder(t, todo[done..]) && Repairing(t, Repair(now, todo[..done]), todo[done..])
    decreases done
  {
    if done == 0 {
      assert todo[0..] == todo;
    } else {
      RepairStep(t, now, todo);
      RepairPrefix(now, todo, done);
      PartialRepair(t, RenameOne(now, todo[0]), todo[1..], done - 1);
    }
  }

  /**
   * The renames are not in a transaction.  If a fault stops the loop after
   * `done` renames, the next start repairs whatever was left, and every keeper
   * of the original table still holds its own name at the end.
   */
  lemma RestartAfterFault(t: seq<AgentRow>, dups: seq<Dup>, done: nat, again: seq<Dup>)
    requires IdsDistinct(t) && IsDupListing(t, dups) && done <= |dups|
    requires IsDupListing(Repair(t, dups[..done]), again)
    ensures var part := Repair(t, dups[..done]);
      var r := Repair(part, again);
      && UsernamesDistinct(r) && |r| == |part| == |t|
      && (forall i :: 0 <= i < |t| ==> r[i] == t[i].(username := r[i].username))
      && (forall i :: 0 <= i < |t| ==> (r[i] == t[i] <==> IsKeeper(t, i)))
      && (forall i :: 0 <= i < |t| && !IsKeeper(t, i) ==> Renamed(t, r, i))
      && (forall i :: 0 <= i < |t| && part[i] != t[i] ==> r[i] == part[i])
  {
    RepairingFromStart(t, dups);
    PartialRepair(t, t, dups, done);
    var part := Repair(t, dups[..done]);
    RepairKeepsIds(t, dups[..done]);
    RepairSound(part, again);
    var r := Repair(part, again);
    forall i | 0 <= i < |t|
      ensures IsKeeper(part, i) <==> IsKeeper(t, i) || part[i] != t[i]
    {
      KeepersOfPartial(t, part, dups[done..], i);
    }
    forall i | 0 <= i < |t| && !IsKeeper(t, i)
      ensures Renamed(t, r, i) && r[i] != t[i]
    {
      if part[i] != t[i] {
        assert Renamed(t, part, i) && r[i] == part[i];
      } else {
        assert Renamed(part, r, i);
      }
    }
  }

  /** In a table repaired in part, the lowest row of each name is an old keeper or a row already renamed. */
  lemma KeepersOfPartial(t: seq<AgentRow>, part: seq<AgentRow>, todo: seq<Dup>, i: nat)
    requires Repairing(t, part, todo) && IsRemainder(t, todo) && IdsDistinct(t) && i < |t|
    ensures IsKeeper(part, i) <==> IsKeeper(t, i) || part[i] != t[i]
  {
    if IsKeeper(t, i) {
      assert part[i] == t[i];
      forall j | 0 <= j < i
        ensures part[j].username != part[i].username
      {
        if part[j] == t[j] {
          assert t[j].username != t[i].username;
        }
      }
    } else if part[i] == t[i] {
      var k := KeeperOf(t, i);
      assert part[k] == t[k] && k != i;
    }
  }
}
