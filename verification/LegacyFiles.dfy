/** The legacy JSON files, and what loading them leaves in memory when the errors are dropped. */
module LegacyFiles {
  import opened AgentTable
  import opened Migration

  /** A member of a file's top-level object. */
  datatype Member<+T> = Missing | Null | Value(value: T)

  datatype Content = Content(
    cards: Member<map<string, CardRow>>, sessions: Member<map<string, SessionRow>>,
    blacklist: Member<seq<BlacklistRow>>, agents: Member<map<string, AgentRow>>, audit: Member<seq<AuditRow>>)

  /** Of a file that does not decode, `decoded` is what gets into memory all the same, which may be anything. */
  datatype File = Absent | Readable(content: Content) | Broken(content: Content, decoded: Content)

  /** cards.json, and data.json of older installs. */
  datatype Files = Files(cards: File, data: File)

  const NOTHING := Legacy(map[], map[], [], map[], [])

  // ----- json.Unmarshal into a value that may hold something already

  function MapOver<V>(prior: map<string, V>, m: Member<map<string, V>>): map<string, V> {
    match m
    case Missing => prior
    case Null => map[]
    case Value(v) => prior + v
  }

  function ListOver<T>(prior: seq<T>, m: Member<seq<T>>): seq<T> {
    match m
    case Missing => prior
    case Null => []
    case Value(v) => v
  }

  function Over(prior: Legacy, c: Content): Legacy {
    Legacy(
      MapOver(prior.cards, c.cards), MapOver(prior.sessions, c.sessions), ListOver(prior.blacklist, c.blacklist),
      MapOver(prior.agents, c.agents), ListOver(prior.audit, c.audit))
  }

  /** Loading a file whose bytes can be read. */
  function Load(prior: Legacy, f: File): Legacy {
    match f
    case Absent => prior
    case Readable(c) => Over(prior, c)
    case Broken(_, decoded) => Over(prior, decoded)
  }

  predicate HasMain(data: Legacy) {
    |data.cards| > 0 || |data.agents| > 0
  }

  /** What the migration works on; a file that cannot be read loads nothing. */
  function DecodedIf(files: Files, cardsRead: bool, dataRead: bool): Legacy {
    var first := if cardsRead then Load(NOTHING, files.cards) else NOTHING;
    if HasMain(first) || !dataRead then first else Load(first, files.data)
  }

  function Decoded(files: Files): Legacy {
    DecodedIf(files, true, true)
  }

  ghost predicate Loads(files: Files, data: Legacy, mayFail: bool) {
    data == Decoded(files) || (mayFail && exists c: bool, d: bool :: data == DecodedIf(files, c, d))
  }

  // ----- what the files hold, and what of it was decoded

  function Rows(f: File): Legacy {
    match f
    case Absent => NOTHING
    case Readable(c) => Over(NOTHING, c)
    case Broken(c, _) => Over(NOTHING, c)
  }

  /** Every row of `wanted` has its key in `data`; audit entries have none and are counted. */
  ghost predicate Covers(data: Legacy, wanted: Legacy) {
    && (forall k :: k in wanted.cards ==> exists l :: l in data.cards && data.cards[l].code == wanted.cards[k].code)
    && (forall k :: k in wanted.sessions ==>
          exists l :: l in data.sessions && data.sessions[l].token == wanted.sessions[k].token)
    && (forall b :: b in wanted.blacklist ==> exists x :: x in data.blacklist && x.value == b.value)
    && (forall k :: k in wanted.agents ==>
          exists l :: l in data.agents && EffectiveId(l, data.agents[l]) == EffectiveId(k, wanted.agents[k]))
    && multiset(wanted.audit) <= multiset(data.audit)
  }

  /** Nothing was lost in loading: of cards.json, and of data.json where cards.json has neither cards nor agents. */
  ghost predicate Lossless(files: Files, data: Legacy) {
    && Covers(data, Rows(files.cards))
    && (!HasMain(Rows(files.cards)) ==> Covers(data, Rows(files.data)))
  }

  lemma CoversItself(data: Legacy)
    ensures Covers(data, data)
    ensures Covers(data, NOTHING)
  {
  }

  /**
   * One readable file is decoded whole, row by row.  With both files in use, or
   * a broken one, Lossless tells whether something is missing.
   */
  lemma OneFileWhole(files: Files)
    requires !files.cards.Broken? && !files.data.Broken?
    requires HasMain(Rows(files.cards)) || Rows(files.cards) == NOTHING
    ensures Decoded(files) == if HasMain(Rows(files.cards)) then Rows(files.cards) else Rows(files.data)
    ensures Lossless(files, Decoded(files))
  {
    assert Load(NOTHING, files.cards) == Rows(files.cards);
    assert Load(NOTHING, files.data) == Rows(files.data);
    CoversItself(Decoded(files));
  }

  /** A member of the second file: nothing, or an empty one that clears, or rows that go over the first file's. */
  lemma MapAfterBoth<V>(first: map<string, V>, m: Member<map<string, V>>, k: string)
    ensures var r := MapOver(first, m);
      && (k in r <==> (k in first && m != Null) || (m.Value? && k in m.value))
      && (k in r ==> r[k] == if m.Value? && k in m.value then m.value[k] else first[k])
  {
  }

  lemma HasMainIff(data: Legacy)
    ensures HasMain(data) <==> data.cards != map[] || data.agents != map[]
  {
    if |data.cards| == 0 {
      NoKeys(data.cards);
    }
    if |data.agents| == 0 {
      NoKeys(data.agents);
    }
  }

  /** The second file is only read if the first has neither a card nor an agent. */
  lemma SecondFileRead(files: Files)
    ensures var first := Load(NOTHING, files.cards);
      Decoded(files) == if first.cards == map[] && first.agents == map[] then Load(first, files.data) else first
  {
    HasMainIff(Load(NOTHING, files.cards));
  }

  /** Of two readable files, the first one's lists stay only where the second has no such member. */
  lemma ListsOfBoth(first: Legacy, b: Content)
    ensures var r := Load(first, Readable(b));
      && r.blacklist == (
           if b.blacklist.Value? then b.blacklist.value else if b.blacklist.Null? then [] else first.blacklist)
      && r.audit == (if b.audit.Value? then b.audit.value else if b.audit.Null? then [] else first.audit)
  {
  }

  /** Its sessions stay unless the second clears them or has their keys. */
  lemma SessionsOfBoth(first: Legacy, b: Content, k: string)
    ensures var r := Load(first, Readable(b)).sessions;
      && (k in r <==> (k in first.sessions && !b.sessions.Null?) || (b.sessions.Value? && k in b.sessions.value))
      && (k in r ==>
            r[k] == if b.sessions.Value? && k in b.sessions.value then b.sessions.value[k] else first.sessions[k])
  {
    MapAfterBoth(first.sessions, b.sessions, k);
  }

  /** Cards and agents, of which the first has none, are the second's. */
  lemma MainOfSecond(first: Legacy, b: Content)
    requires first.cards == map[] && first.agents == map[]
    ensures var r := Load(first, Readable(b));
      && r.cards == (if b.cards.Value? then b.cards.value else map[])
      && r.agents == (if b.agents.Value? then b.agents.value else map[])
  {
    assert b.cards.Value? ==> map[] + b.cards.value == b.cards.value;
    assert b.agents.Value? ==> map[] + b.agents.value == b.agents.value;
  }
}
