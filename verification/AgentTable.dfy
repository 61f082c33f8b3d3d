/** The agents table: rows in rowid order. */
module AgentTable {
  import FreshNames

  datatype AgentRow = AgentRow(
    id: string, username: string, password: string, prefix: string, createdAt: string, disabled: bool)

  predicate IdsDistinct(t: seq<AgentRow>) {
    forall i, j :: 0 <= i < j < |t| ==> t[i].id != t[j].id
  }

  /** What the unique index on username demands. */
  predicate UsernamesDistinct(t: seq<AgentRow>) {
    forall i, j :: 0 <= i < j < |t| ==> t[i].username != t[j].username
  }

  function Usernames(t: seq<AgentRow>): set<string> {
    set row | row in t :: row.username
  }

  function Ids(t: seq<AgentRow>): set<string> {
    set row | row in t :: row.id
  }

  lemma {:induction false} FewerNamesThanRows(t: seq<AgentRow>)
    ensures |Usernames(t)| <= |t|
  {
    if t != [] {
      FewerNamesThanRows(t[1..]);
      assert Usernames(t) == Usernames(t[1..]) + {t[0].username} by {
        assert t == [t[0]] + t[1..];
      }
    }
  }

  /** Two rows that share a name leave at most |t| - 2 other names. */
  lemma SharedNameSavesTwo(t: seq<AgentRow>, i: nat, j: nat)
    requires i < j < |t| && t[i].username == t[j].username
    ensures |Usernames(t) - {t[i].username}| <= |t| - 2
  {
    var rest := t[..i] + t[i + 1..j] + t[j + 1..];
    FewerNamesThanRows(rest);
    assert Usernames(t) - {t[i].username} <= Usernames(rest) by {
      forall row | row in t && row.username != t[i].username
        ensures row in rest
      {
        var k :| 0 <= k < |t| && t[k] == row;
        assert if k < i then rest[k] == row else if k < j then rest[k - 1] == row else rest[k - 2] == row;
      }
    }
    FreshNames.SubsetSize(Usernames(t) - {t[i].username}, Usernames(rest));
  }
}
