/** Start-up schema work on the agents table. */
module AgentSchema {
  import opened AgentTable
  import opened FreshNames
  import opened Deduplication

  class AgentStore {
    var rows: seq<AgentRow>
    var usernameIndex: bool  // idx_agents_username exists

    ghost predicate Valid()
      reads this
    {
      IdsDistinct(rows) && (usernameIndex ==> UsernamesDistinct(rows))
    }

    constructor (rows: seq<AgentRow>, usernameIndex: bool)
      ensures this.rows == rows && this.usernameIndex == usernameIndex
    {
      this.rows, this.usernameIndex := rows, usernameIndex;
    }

    /** The cursor loop over the query; rows come in whatever order the engine likes. */
    method ListDuplicates() returns (dups: seq<Dup>)
      requires Valid()
      ensures IsDupListing(rows, dups)
    {
      dups := [];
      ghost var order: seq<nat> := [];
      var left := set i | 0 <= i < |rows| && !IsKeeper(rows, i);
      while left != {}
        invariant ListedSoFar(rows, dups, order, left)
      {
        var i :| i in left;
        ListedNext(rows, dups, order, left, i);
        left := left - {i};
        dups := dups + [Dup(rows[i].id, rows[i].username)];
        order := order + [i];
      }
      ListedAll(rows, dups, order);
    }

    /** The inner loop: count up until SELECT COUNT(*) finds nobody holding the candidate. */
    method SearchSuffix(base: string, mayFail: bool) returns (err: bool, suffix: nat)
      ensures err ==> mayFail
      ensures !err ==> suffix == FreshSuffix(rows, base)
    {
      err, suffix := false, 1;
      DupNamesInjective(base);
      while true
        invariant suffix >= 1 && !err
        invariant forall s :: 1 <= s < suffix ==> DupName(base, s) in Usernames(rows)
        decreases Ahead(Usernames(rows), DupNames(base), suffix)
      {
        if mayFail {
          err := *;
          if err { return; }
        }
        if DupName(base, suffix) !in Usernames(rows) { break; }
        AheadShrinks(Usernames(rows), DupNames(base), suffix);
        suffix := suffix + 1;
      }
      FreshSuffixLeast(rows, base, suffix);
    }

    /** The outer loop over the listed rows; each UPDATE takes effect at once. */
    method RenameListed(dups: seq<Dup>, mayFail: bool) returns (err: bool, ghost done: nat)
      modifies `rows
      ensures done <= |dups| && rows == Repair(old(rows), dups[..done])
      ensures if err then mayFail else done == |dups|
    {
      ghost var before := rows;
      err, done := false, 0;
      for n := 0 to |dups|
        invariant done == n && !err
        invariant rows == Repair(before, dups[..n])
      {
        var d, suffix := dups[n], 0;
        err, suffix := SearchSuffix(d.username, mayFail);
        if err { return; }
        if mayFail {
          err := *;
          if err { return; }
        }
        RepairNext(before, dups, n);
        rows := Rename(rows, d.id, DupName(d.username, suffix));
        done := n + 1;
      }
    }

    /**
     * Every statement may fail when `mayFail`; the renames done before a failure
     * stay, because the loop runs outside any transaction.
     */
    method DeduplicateAgentUsernames(mayFail: bool) returns (err: bool, ghost dups: seq<Dup>, ghost done: nat)
      requires Valid()
      modifies `rows
      ensures Valid()
      ensures IsDupListing(old(rows), dups) && done <= |dups|
      ensures rows == Repair(old(rows), dups[..done])
      ensures if err then mayFail else done == |dups| && UsernamesDistinct(rows)
      ensures !err ==> |rows| == |old(rows)| && forall i :: 0 <= i < |rows| ==>
        if IsKeeper(old(rows), i) then rows[i] == old(rows)[i]
        else rows[i] == old(rows)[i].(username := rows[i].username)
             && IsDupName(old(rows)[i].username, rows[i].username, |rows|)
      ensures !err && |old(rows)| == 2 && old(rows)[0].username == old(rows)[1].username ==>
        rows == [old(rows)[0], old(rows)[1].(username := old(rows)[1].username + "_dup1")]
    {
      ghost var before := rows;
      var listing := ListDuplicates();
      dups, done := listing, 0;
      assert usernameIndex ==> listing == [] by {
        assert listing == [] || IsExtra(rows, listing[0]);
      }
      if mayFail {
        err := *;
        if err { return; }
      }
      err, done := RenameListed(listing, mayFail);
      RepairKeepsIds(before, listing[..done]);
      if !err {
        assert listing[..done] == listing;
        RepairSound(before, listing);
        forall i | 0 <= i < |rows| && !IsKeeper(before, i)
          ensures IsDupName(before[i].username, rows[i].username, |rows|)
        {
          assert Renamed(before, rows, i);
        }
        if |before| == 2 && before[0].username == before[1].username {
          SecondOfTwo(before, listing);
        }
      }
    }

    /** Deduplicate, then build the unique index: on a healthy database the build cannot fail. */
    method ApplyAgentSchema(mayFail: bool) returns (err: bool, ghost dups: seq<Dup>, ghost done: nat)
      requires Valid()
      modifies this
      ensures Valid()
      ensures IsDupListing(old(rows), dups) && done <= |dups|
      ensures rows == Repair(old(rows), dups[..done])
      ensures err ==> mayFail && usernameIndex == old(usernameIndex)
      ensures !err ==> usernameIndex && done == |dups|
    {
      err, dups, done := DeduplicateAgentUsernames(mayFail);
      if err { return; }
      if !usernameIndex {
        // CREATE UNIQUE INDEX IF NOT EXISTS fails on a repeated value
        if !UsernamesDistinct(rows) { return true, dups, done; }
        if mayFail {
          err := *;
          if err { return; }
        }
        usernameIndex := true;
      }
    }
  }
}
