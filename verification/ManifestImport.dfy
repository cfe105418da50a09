/** Importing an agent manifest into the local registry: two upserts per profile, with names
    allowed to repeat. */
module ManifestImport {
  import opened Options

  datatype Source = Source(tag: string)
  datatype Name = Name(text: string)
  datatype Key = Key(source: Source, id: Name)

  datatype Profile = Profile(
    name: Name, zellijSession: Option<string>, service: string, stateDir: string, runtime: Option<string>)

  datatype AgentRow = AgentRow(
    domainId: string, runtimeKind: string, supervisionMode: string, capabilitiesJson: string,
    profilePath: Option<string>, enrolledAt: string, lastSyncedAt: Option<string>)

  /** The state directory specification serialized into its column. */
  datatype StateDirSpec = Persistent(path: string) | OtherSpec(json: string)

  datatype ContextRow = ContextRow(
    vaultFolder: Option<string>, stateDirSpec: Option<StateDirSpec>, zellijSession: Option<string>,
    systemdService: Option<string>, supervisePaused: bool)

  datatype Tables = Tables(agents: map<Key, AgentRow>, contexts: map<Key, ContextRow>)

  datatype Summary = Summary(created: nat, updated: nat, total: nat)

  // ---------- One profile ----------

  function RuntimeKind(p: Profile): string {
    p.runtime.GetOr("zellij_hosted")
  }

  predicate IsAcp(p: Profile) {
    RuntimeKind(p) == "claude_agent_acp"
  }

  function ProfilePath(p: Profile): Option<string> {
    if IsAcp(p) then Some(p.stateDir) else None
  }

  /** INSERT ... ON CONFLICT DO UPDATE on the agent table. */
  function UpsertAgent(old_: Option<AgentRow>, p: Profile, now: string): AgentRow {
    match old_
    case None => AgentRow("", RuntimeKind(p), "persistent", "[]", ProfilePath(p), now, None)
    case Some(row) => row.(runtimeKind := RuntimeKind(p), supervisionMode := "persistent",
                           profilePath := ProfilePath(p))
  }

  /** The same on the launch contexts: an update leaves `supervise_paused` alone. */
  function UpsertContext(old_: Option<ContextRow>, p: Profile): ContextRow {
    ContextRow(Some(p.name.text), Some(Persistent(p.stateDir)), if IsAcp(p) then None else p.zellijSession,
               Some(p.service), if old_.Some? then old_.value.supervisePaused else false)
  }

  function Lookup<V>(m: map<Key, V>, k: Key): Option<V> {
    if k in m then Some(m[k]) else None
  }

  // ---------- The whole manifest ----------

  predicate Named(profiles: seq<Profile>, name: Name) {
    exists i :: 0 <= i < |profiles| && profiles[i].name == name
  }

  /** The last profile of that name. */
  function LastOf(profiles: seq<Profile>, name: Name): (p: Profile)
    requires Named(profiles, name)
    ensures p in profiles && p.name == name
  {
    var n := |profiles| - 1;
    if profiles[n].name == name then profiles[n]
    else
      assert Named(profiles[..n], name);
      LastOf(profiles[..n], name)
  }

  /** What an import leaves under one key. Last writer wins: the rows of a name in the
      manifest are upserted once, with the last profile of that name; other rows stay. */
  predicate ImportedRow(before: Tables, after: Tables, source: Source, profiles: seq<Profile>, now: string, k: Key) {
    if k.source == source && Named(profiles, k.id) then
      && Lookup(after.agents, k) == Some(UpsertAgent(Lookup(before.agents, k), LastOf(profiles, k.id), now))
      && Lookup(after.contexts, k) == Some(UpsertContext(Lookup(before.contexts, k), LastOf(profiles, k.id)))
    else
      && Lookup(after.agents, k) == Lookup(before.agents, k)
      && Lookup(after.contexts, k) == Lookup(before.contexts, k)
  }

  ghost predicate ImportedInto(before: Tables, after: Tables, source: Source, profiles: seq<Profile>, now: string) {
    forall k :: ImportedRow(before, after, source, profiles, now, k)
  }

  /** How many of the profiles name an agent that was not enrolled at the start. */
  function CountNew(profiles: seq<Profile>, existing: set<Name>): nat {
    if profiles == [] then 0
    else CountNew(profiles[..|profiles| - 1], existing) + if profiles[|profiles| - 1].name in existing then 0 else 1
  }

  class Registry {
    var agents: map<Key, AgentRow>
    var contexts: map<Key, ContextRow>

    function Contents(): Tables
      reads this
    {
      Tables(agents, contexts)
    }

    method ImportManifest(source: Source, profiles: seq<Profile>, now: string) returns (summary: Summary)
      modifies this
      ensures ImportedInto(old(Contents()), Contents(), source, profiles, now)
      ensures summary.total == |profiles| && summary.created + summary.updated == summary.total
      ensures summary.created == CountNew(profiles, set k | k in old(agents) && k.source == source :: k.id)
    {
      hide ImportedInto, ImportedRow, UpsertAgent, UpsertContext;
      var existing := set k | k in agents && k.source == source :: k.id;
      ghost var before := Contents();
      summary := Summary(0, 0, |profiles|);
      NothingImported(before, source, now);
      for i := 0 to |profiles|
        invariant ImportedInto(before, Contents(), source, profiles[..i], now)
        invariant summary.total == |profiles| && summary.created + summary.updated == i
        invariant summary.created == CountNew(profiles[..i], existing)
      {
        var profile := profiles[i];
        var key := Key(source, profile.name);
        ghost var tables := Contents();
        agents := agents[key := UpsertAgent(Lookup(agents, key), profile, now)];
        contexts := contexts[key := UpsertContext(Lookup(contexts, key), profile)];
        assert profiles[..i + 1] == profiles[..i] + [profile];
        OneMoreImported(before, tables, source, profiles[..i], profile, now);
        CountSnoc(profiles[..i], profile, existing);
        if profile.name in existing {
          summary := summary.(updated := summary.updated + 1);
        } else {
          summary := summary.(created := summary.created + 1);
        }
      }
      assert profiles[..|profiles|] == profiles;
    }

    /** Deletes the agents of a source and then their launch contexts. */
    method UnenrollBySource(source: Source) returns (removed: nat)
      modifies this
      ensures Contents() == WithoutSource(old(Contents()), source)
      ensures removed == |set k | k in old(agents) && k.source == source|
    {
      var gone := set k | k in agents && k.source == source;
      removed := |gone|;
      agents := agents - gone;
      contexts := contexts - set k | k in contexts && k.source == source;
    }

    /** Moves a local agent to another domain; false if there is none. */
    method Reassign(id: Name, domain: string) returns (found: bool)
      modifies `agents
      ensures found <==> Key(Source("local"), id) in old(agents)
      ensures agents.Keys == old(agents).Keys
      ensures forall k :: k in agents ==>
                agents[k] == if k == Key(Source("local"), id) then old(agents)[k].(domainId := domain)
                             else old(agents)[k]
    {
      var key := Key(LOCAL, id);
      found := key in agents;
      if found {
        agents := agents[key := agents[key].(domainId := domain)];
      }
    }
  }

  const LOCAL := Source("local")

  function WithoutSource(t: Tables, source: Source): Tables {
    Tables(map k | k in t.agents && k.source != source :: t.agents[k],
           map k | k in t.contexts && k.source != source :: t.contexts[k])
  }

  // ---------- Proofs about the loop ----------

  lemma NothingImported(t: Tables, source: Source, now: string)
    ensures ImportedInto(t, t, source, [], now)
  {
  }

  lemma CountSnoc(profiles: seq<Profile>, p: Profile, existing: set<Name>)
    ensures CountNew(profiles + [p], existing) == CountNew(profiles, existing) + if p.name in existing then 0 else 1
  {
    assert (profiles + [p])[..|profiles|] == profiles;
  }

  lemma NamedSnoc(profiles: seq<Profile>, p: Profile, name: Name)
    ensures Named(profiles + [p], name) <==> Named(profiles, name) || p.name == name
    ensures Named(profiles + [p], name) ==>
              LastOf(profiles + [p], name) == if p.name == name then p else LastOf(profiles, name)
  {
    var more := profiles + [p];
    assert more[..|profiles|] == profiles && more[|profiles|] == p;
    if Named(profiles, name) {
      var i :| 0 <= i < |profiles| && profiles[i].name == name;
      assert more[i].name == name;
    }
  }

  /** An upsert after an upsert of the same name is the second one alone. */
  lemma SecondUpsertWins(a: Option<AgentRow>, c: Option<ContextRow>, p: Profile, q: Profile, now: string)
    ensures UpsertAgent(Some(UpsertAgent(a, p, now)), q, now) == UpsertAgent(a, q, now)
    ensures UpsertContext(Some(UpsertContext(c, p)), q) == UpsertContext(c, q)
  {
  }

  function UpsertBoth(t: Tables, key: Key, p: Profile, now: string): Tables {
    Tables(t.agents[key := UpsertAgent(Lookup(t.agents, key), p, now)],
           t.contexts[key := UpsertContext(Lookup(t.contexts, key), p)])
  }

  lemma OneMoreRow(before: Tables, t: Tables, source: Source, profiles: seq<Profile>, p: Profile, now: string, k: Key)
    requires ImportedRow(before, t, source, profiles, now, k)
    ensures ImportedRow(before, UpsertBoth(t, Key(source, p.name), p, now), source, profiles + [p], now, k)
  {
    hide UpsertAgent, UpsertContext, Named, LastOf;
    NamedSnoc(profiles, p, k.id);
    if k == Key(source, p.name) && Named(profiles, k.id) {
      SecondUpsertWins(Lookup(before.agents, k), Lookup(before.contexts, k), LastOf(profiles, k.id), p, now);
    }
  }

  lemma OneMoreImported(before: Tables, t: Tables, source: Source, profiles: seq<Profile>, p: Profile, now: string)
    requires ImportedInto(before, t, source, profiles, now)
    ensures ImportedInto(before, UpsertBoth(t, Key(source, p.name), p, now), source, profiles + [p], now)
  {
    hide ImportedRow, UpsertBoth;
    forall k
      ensures ImportedRow(before, UpsertBoth(t, Key(source, p.name), p, now), source, profiles + [p], now, k)
    {
      assert ImportedRow(before, t, source, profiles, now, k);
      OneMoreRow(before, t, source, profiles, p, now, k);
    }
  }

  // ---------- What an import guarantees ----------

  /** Other sources are untouched, and so are the domain, capabilities and enrolment of
      existing agents and the pause switch of existing contexts. */
  lemma ImportPreserves(before: Tables, after: Tables, source: Source, profiles: seq<Profile>, now: string, k: Key)
    requires ImportedInto(before, after, source, profiles, now)
    ensures k.source != source ==> Lookup(after.agents, k) == Lookup(before.agents, k)
                                   && Lookup(after.contexts, k) == Lookup(before.contexts, k)
    ensures k in before.agents ==>
              && k in after.agents && after.agents[k].domainId == before.agents[k].domainId
              && after.agents[k].capabilitiesJson == before.agents[k].capabilitiesJson
              && after.agents[k].enrolledAt == before.agents[k].enrolledAt
              && after.agents[k].lastSyncedAt == before.agents[k].lastSyncedAt
    ensures k in before.contexts ==>
              k in after.contexts && after.contexts[k].supervisePaused == before.contexts[k].supervisePaused
  {
    hide Named, LastOf;
    assert ImportedRow(before, after, source, profiles, now, k);
  }

  /** A second import of the same manifest, at any later time, leaves each row as it is. */
  lemma ReimportedRow(before: Tables, after: Tables, again: Tables, source: Source, profiles: seq<Profile>,
                      now: string, later: string, k: Key)
    requires ImportedRow(before, after, source, profiles, now, k)
              && ImportedRow(after, again, source, profiles, later, k)
    ensures Lookup(again.agents, k) == Lookup(after.agents, k) && Lookup(again.contexts, k) == Lookup(after.contexts, k)
  {
    hide Named, LastOf;
  }

  lemma ReimportChangesNothing(before: Tables, after: Tables, again: Tables, source: Source, profiles: seq<Profile>,
                               now: string, later: string)
    requires ImportedInto(before, after, source, profiles, now) && ImportedInto(after, again, source, profiles, later)
    ensures again == after
  {
    hide ImportedRow;
    forall k
      ensures Lookup(again.agents, k) == Lookup(after.agents, k)
                && Lookup(again.contexts, k) == Lookup(after.contexts, k)
    {
      assert ImportedRow(before, after, source, profiles, now, k)
          && ImportedRow(after, again, source, profiles, later, k);
      ReimportedRow(before, after, again, source, profiles, now, later, k);
    }
    SameLookups(again.agents, after.agents);
    SameLookups(again.contexts, after.contexts);
  }

  lemma SameLookups<V>(m: map<Key, V>, n: map<Key, V>)
    requires forall k :: Lookup(m, k) == Lookup(n, k)
    ensures m == n
  {
    forall k
      ensures k in m <==> k in n
      ensures k in m ==> m[k] == n[k]
    {
      assert Lookup(m, k) == Lookup(n, k);
    }
  }

  /** ... and then reports nothing created. */
  lemma {:induction false} ReimportCreatesNothing(after: Tables, source: Source, profiles: seq<Profile>)
    requires forall name :: Named(profiles, name) ==> Key(source, name) in after.agents
    ensures CountNew(profiles, set k | k in after.agents && k.source == source :: k.id) == 0
  {
    var existing := set k | k in after.agents && k.source == source :: k.id;
    if profiles != [] {
      var n := |profiles| - 1;
      NamedSnoc(profiles[..n], profiles[n], profiles[n].name);
      assert profiles == profiles[..n] + [profiles[n]];
      assert Key(source, profiles[n].name) in after.agents;
      forall name | Named(profiles[..n], name)
        ensures Key(source, name) in after.agents
      {
        NamedSnoc(profiles[..n], profiles[n], name);
      }
      ReimportCreatesNothing(after, source, profiles[..n]);
    }
  }

  ghost predicate NewNamesDistinct(profiles: seq<Profile>, existing: set<Name>) {
    forall i, j :: 0 <= i < j < |profiles| && profiles[i].name == profiles[j].name ==> profiles[i].name in existing
  }

  lemma NewNamesSnoc(profiles: seq<Profile>, p: Profile, existing: set<Name>)
    ensures NewNames(profiles + [p], existing)
            == NewNames(profiles, existing) + if p.name in existing then {} else {p.name}
  {
    var more := profiles + [p];
    assert forall i :: 0 <= i < |profiles| ==> more[i] == profiles[i];
    assert more[|profiles|] == p;
  }

  lemma DistinctSnoc(profiles: seq<Profile>, p: Profile, existing: set<Name>)
    ensures NewNamesDistinct(profiles + [p], existing)
            <==> NewNamesDistinct(profiles, existing) && p.name !in NewNames(profiles, existing)
  {
    var more := profiles + [p];
    assert forall i :: 0 <= i < |profiles| ==> more[i] == profiles[i];
    assert more[|profiles|] == p;
    if p.name in NewNames(profiles, existing) {
      var i :| 0 <= i < |profiles| && profiles[i].name == p.name;
      assert more[i].name == more[|profiles|].name;
    }
  }

  /** `created` is the number of agents added if and only if no new name occurs twice. */
  lemma {:induction false} CreatedCountsRows(profiles: seq<Profile>, existing: set<Name>)
    ensures |NewNames(profiles, existing)| <= CountNew(profiles, existing)
    ensures |NewNames(profiles, existing)| == CountNew(profiles, existing) <==> NewNamesDistinct(profiles, existing)
  {
    if profiles != [] {
      hide NewNames, NewNamesDistinct;
      var n := |profiles| - 1;
      var front, p := profiles[..n], profiles[n];
      assert profiles == front + [p];
      CreatedCountsRows(front, existing);
      NewNamesSnoc(front, p, existing);
      DistinctSnoc(front, p, existing);
      var names := NewNames(front, existing);
      if p.name in names {
        assert names + {p.name} == names;
        assert p.name !in existing by { NewNamesAreNew(front, existing, p.name); }
      } else {
        assert |names + {p.name}| == |names| + 1;
      }
    } else {
      assert NewNames(profiles, existing) == {};
    }
  }

  lemma NewNamesAreNew(profiles: seq<Profile>, existing: set<Name>, name: Name)
    requires name in NewNames(profiles, existing)
    ensures name !in existing
  {
  }

  function NewNames(profiles: seq<Profile>, existing: set<Name>): set<Name> {
    set i | 0 <= i < |profiles| && profiles[i].name !in existing :: profiles[i].name
  }

  /** Unenrolling the source afterwards leaves what unenrolling it at once would have left. */
  lemma UnenrollUndoesImport(before: Tables, after: Tables, source: Source, profiles: seq<Profile>, now: string)
    requires ImportedInto(before, after, source, profiles, now)
    ensures WithoutSource(after, source) == WithoutSource(before, source)
  {
    hide ImportedRow;
    var a, b := WithoutSource(after, source), WithoutSource(before, source);
    forall k
      ensures Lookup(a.agents, k) == Lookup(b.agents, k) && Lookup(a.contexts, k) == Lookup(b.contexts, k)
    {
      assert ImportedRow(before, after, source, profiles, now, k);
      if k.source != source {
        ImportPreserves(before, after, source, profiles, now, k);
      }
    }
    SameLookups(a.agents, b.agents);
    SameLookups(a.contexts, b.contexts);
  }

  /** Which columns a profile gives: the last profile of a name decides them all, and a new row
      starts without a domain, with no capabilities, enrolled now and not paused. */
  lemma ImportedColumns(before: Tables, after: Tables, source: Source, profiles: seq<Profile>, now: string, i: nat)
    requires ImportedInto(before, after, source, profiles, now)
    requires i < |profiles| && forall j :: i < j < |profiles| ==> profiles[j].name != profiles[i].name
    ensures var p, k := profiles[i], Key(source, profiles[i].name);
            var acp := p.runtime == Some("claude_agent_acp");
            && k in after.agents && k in after.contexts
            && var agent, context := after.agents[k], after.contexts[k];
               && agent.runtimeKind == (if p.runtime.Some? then p.runtime.value else "zellij_hosted")
               && agent.supervisionMode == "persistent"
               && agent.profilePath == (if acp then Some(p.stateDir) else None)
               && context.vaultFolder == Some(p.name.text) && context.systemdService == Some(p.service)
               && context.stateDirSpec == Some(Persistent(p.stateDir))
               && context.zellijSession == (if acp then None else p.zellijSession)
               && (k !in before.agents ==> agent.domainId == "" && agent.capabilitiesJson == "[]"
                                           && agent.enrolledAt == now && agent.lastSyncedAt == None)
               && (k !in before.contexts ==> !context.supervisePaused)
  {
    var p, k := profiles[i], Key(source, profiles[i].name);
    LastNamed(profiles, i);
    assert ImportedRow(before, after, source, profiles, now, k);
    KindsDiffer(p);
    hide Named, LastOf, ImportedInto;
  }

  lemma KindsDiffer(p: Profile)
    ensures IsAcp(p) <==> p.runtime == Some("claude_agent_acp")
  {
    assert |"zellij_hosted"| != |"claude_agent_acp"|;
  }

  lemma {:induction false} LastNamed(profiles: seq<Profile>, i: nat)
    requires i < |profiles| && forall j :: i < j < |profiles| ==> profiles[j].name != profiles[i].name
    ensures Named(profiles, profiles[i].name) && LastOf(profiles, profiles[i].name) == profiles[i]
  {
    var n := |profiles| - 1;
    if i < n {
      LastNamed(profiles[..n], i);
    }
  }
}
