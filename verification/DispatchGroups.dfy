/** How one heartbeat bundles its planned dispatches and collects their outcomes
    (scripts/runtime/heartbeat/runner.py, _execute_dispatches).

    The worker pool is represented by the answer of each group's future and by an arbitrary completion order. */
module DispatchGroups {
  import opened Wrappers

  datatype Planned = Planned(jobId: string, executor: string, base: Option<string>)

  datatype Key = Key(executor: string, base: Option<string>)

  datatype Group = Group(members: seq<Planned>, engagement: bool)

  /** What a future gives back: a dispatch result, or the message of the exception it raised. */
  datatype Answer =
    | Returned(success: bool, issueUrl: Option<string>, error: Option<string>, sessionRef: Option<string>,
               attemptDir: Option<string>)
    | Raised(message: string)

  datatype Outcome = Outcome(planned: Planned, success: bool, issueUrl: string, error: string,
                             sessionRef: Option<string>, attemptDir: Option<string>)

  function OrEmpty(text: Option<string>): string {
    if text.Some? then text.value else ""
  }

  function OutcomeOf(planned: Planned, answer: Answer): Outcome {
    match answer
    case Returned(success, issueUrl, error, sessionRef, attemptDir) =>
      Outcome(planned, success, OrEmpty(issueUrl), OrEmpty(error), sessionRef, attemptDir)
    case Raised(message) => Outcome(planned, false, "", "Dispatch raised exception: " + message, None, None)
  }

  // ---------------------------------------------------------------- what the grouping means

  function KeyOf(p: Planned): Key {
    Key(p.executor, p.base)
  }

  /** The capability of every executor named in the plan. The probe may answer differently each time it is
      asked; only its answer at the executor's first dispatch is kept. */
  function Capabilities(planned: seq<Planned>, probe: (string, nat) -> bool): (c: map<string, bool>)
    ensures forall p :: p in planned ==> p.executor in c
  {
    if planned == [] then map[]
    else
      var c := Capabilities(planned[..|planned| - 1], probe);
      var name := planned[|planned| - 1].executor;
      if name in c then c else c[name := probe(name, |planned| - 1)]
  }

  predicate Capable(p: Planned, c: map<string, bool>) {
    p.executor in c && c[p.executor]
  }

  function Singles(planned: seq<Planned>, c: map<string, bool>): seq<Group> {
    if planned == [] then []
    else
      var last := planned[|planned| - 1];
      Singles(planned[..|planned| - 1], c) + (if Capable(last, c) then [] else [Group([last], false)])
  }

  /** Keys of the capable dispatches in the order in which they are first seen. */
  function Keys(planned: seq<Planned>, c: map<string, bool>): seq<Key> {
    if planned == [] then []
    else
      var last := planned[|planned| - 1];
      var front := Keys(planned[..|planned| - 1], c);
      if Capable(last, c) && KeyOf(last) !in front then front + [KeyOf(last)] else front
  }

  /** The capable dispatches of one key, in planning order. */
  function Candidates(planned: seq<Planned>, c: map<string, bool>, key: Key): seq<Planned> {
    if planned == [] then []
    else
      var last := planned[|planned| - 1];
      Candidates(planned[..|planned| - 1], c, key) + (if Capable(last, c) && KeyOf(last) == key then [last] else [])
  }

  function Chunks(candidates: seq<Planned>, limit: nat): seq<Group>
    requires limit > 0
    decreases |candidates|
  {
    if candidates == [] then []
    else if |candidates| <= limit then [Group(candidates, true)]
    else [Group(candidates[..limit], true)] + Chunks(candidates[limit..], limit)
  }

  function Engagements(keys: seq<Key>, planned: seq<Planned>, c: map<string, bool>, limit: nat): seq<Group>
    requires limit > 0
  {
    if keys == [] then []
    else Engagements(keys[..|keys| - 1], planned, c, limit) + Chunks(Candidates(planned, c, keys[|keys| - 1]), limit)
  }

  function Groups(planned: seq<Planned>, c: map<string, bool>, limit: nat): seq<Group>
    requires limit > 0
  {
    Singles(planned, c) + Engagements(Keys(planned, c), planned, c, limit)
  }

  function Members(groups: seq<Group>): seq<Planned> {
    if groups == [] then [] else Members(groups[..|groups| - 1]) + groups[|groups| - 1].members
  }

  /** The engagement groups of one key, in order. */
  function GroupsOf(groups: seq<Group>, key: Key): seq<Group> {
    if groups == [] then []
    else
      var last := groups[|groups| - 1];
      GroupsOf(groups[..|groups| - 1], key)
      + (if last.engagement && last.members != [] && last.members[0].executor == key.executor
            && last.members[0].base == key.base then [last] else [])
  }

  function EngagementLimit(engagementSize: nat, maxPairs: nat): nat {
    2 * (if engagementSize <= maxPairs then engagementSize else maxPairs)
  }

  // ---------------------------------------------------------------- the grouping loops

  lemma {:induction false} FirstAnswerStays(planned: seq<Planned>, probe: (string, nat) -> bool, i: nat)
    requires i <= |planned|
    ensures forall name :: name in Capabilities(planned[..i], probe) ==>
      && name in Capabilities(planned, probe)
      && Capabilities(planned, probe)[name] == Capabilities(planned[..i], probe)[name]
    decreases |planned|
  {
    if i == |planned| {
      assert planned[..i] == planned;
    } else {
      var front := planned[..|planned| - 1];
      FirstAnswerStays(front, probe, i);
      assert front[..i] == planned[..i];
    }
  }

  lemma {:induction false} KeysAreCandidates(planned: seq<Planned>, c: map<string, bool>, key: Key)
    ensures key in Keys(planned, c) <==> Candidates(planned, c, key) != []
  {
    if planned != [] {
      KeysAreCandidates(planned[..|planned| - 1], c, key);
    }
  }

  lemma CapabilitiesStep(planned: seq<Planned>, probe: (string, nat) -> bool, i: nat)
    requires i < |planned|
    ensures var was := Capabilities(planned[..i], probe);
      var name := planned[i].executor;
      Capabilities(planned[..i + 1], probe) == if name in was then was else was[name := probe(name, i)]
  {
    assert planned[..i + 1][..i] == planned[..i];
  }

  lemma SinglesStep(planned: seq<Planned>, c: map<string, bool>, i: nat)
    requires i < |planned|
    ensures Singles(planned[..i + 1], c)
         == Singles(planned[..i], c) + (if Capable(planned[i], c) then [] else [Group([planned[i]], false)])
  {
    assert planned[..i + 1][..i] == planned[..i];
  }

  lemma KeysStep(planned: seq<Planned>, c: map<string, bool>, i: nat)
    requires i < |planned|
    ensures var was := Keys(planned[..i], c);
      Keys(planned[..i + 1], c)
      == if Capable(planned[i], c) && KeyOf(planned[i]) !in was then was + [KeyOf(planned[i])] else was
  {
    assert planned[..i + 1][..i] == planned[..i];
  }

  lemma CandidatesStep(planned: seq<Planned>, c: map<string, bool>, i: nat, key: Key)
    requires i < |planned|
    ensures Candidates(planned[..i + 1], c, key)
         == Candidates(planned[..i], c, key)
            + (if Capable(planned[i], c) && KeyOf(planned[i]) == key then [planned[i]] else [])
  {
    assert planned[..i + 1][..i] == planned[..i];
  }

  /** The dispatches bucketed so far: `keys` in insertion order, `byKey` their candidates. */
  ghost predicate Bucketed(keys: seq<Key>, byKey: map<Key, seq<Planned>>, planned: seq<Planned>, c: map<string, bool>) {
    && keys == Keys(planned, c)
    && (forall k :: k in byKey <==> k in keys)
    && (forall k :: k in byKey ==> byKey[k] == Candidates(planned, c, k))
  }

  lemma BucketedKeys(keys: seq<Key>, byKey: map<Key, seq<Planned>>, planned: seq<Planned>, c: map<string, bool>)
    requires Bucketed(keys, byKey, planned, c)
    ensures keys == Keys(planned, c)
  {
  }

  lemma BucketStep(keys: seq<Key>, byKey: map<Key, seq<Planned>>, planned: seq<Planned>, c: map<string, bool>, i: nat,
                   nextKeys: seq<Key>, nextByKey: map<Key, seq<Planned>>)
    requires i < |planned| && Bucketed(keys, byKey, planned[..i], c)
    requires var p, key := planned[i], KeyOf(planned[i]);
      if Capable(p, c) then
        && nextKeys == (if key in byKey then keys else keys + [key])
        && nextByKey == byKey[key := (if key in byKey then byKey[key] else []) + [p]]
      else nextKeys == keys && nextByKey == byKey
    ensures Bucketed(nextKeys, nextByKey, planned[..i + 1], c)
  {
    hide Keys, Candidates, Capable, KeyOf;
    var p := planned[i];
    KeysStep(planned, c, i);
    KeysAreCandidates(planned[..i], c, KeyOf(p));
    forall k | k in nextByKey
      ensures nextByKey[k] == Candidates(planned[..i + 1], c, k)
    {
      CandidatesStep(planned, c, i, k);
      KeysAreCandidates(planned[..i], c, k);
    }
  }

  method GroupDispatches(planned: seq<Planned>, limit: nat, probe: (string, nat) -> bool) returns (grouped: seq<Group>)
    requires limit > 0
    ensures grouped == Groups(planned, Capabilities(planned, probe), limit)
  {
    ghost var c := Capabilities(planned, probe);
    assert Capabilities(planned[..0], probe) == map[] && Singles(planned[..0], c) == [];
    assert Bucketed([], map[], planned[..0], c);
    hide Capabilities, Singles, Bucketed, Chunks, Candidates, Keys, Engagements;
    grouped := [];
    var keys: seq<Key> := [];
    var byKey: map<Key, seq<Planned>> := map[];
    var capabilities: map<string, bool> := map[];
    for i := 0 to |planned|
      invariant capabilities == Capabilities(planned[..i], probe)
      invariant grouped == Singles(planned[..i], c)
      invariant Bucketed(keys, byKey, planned[..i], c)
    {
      var p := planned[i];
      ghost var keysWere, byKeyWas := keys, byKey;
      if p.executor !in capabilities {
        capabilities := capabilities[p.executor := probe(p.executor, i)];
      }
      CapabilitiesStep(planned, probe, i);
      FirstAnswerStays(planned, probe, i + 1);
      SinglesStep(planned, c, i);
      if capabilities[p.executor] {
        var key := Key(p.executor, p.base);
        if key !in byKey {
          keys := keys + [key];
          byKey := byKey[key := []];
        }
        byKey := byKey[key := byKey[key] + [p]];
        assert byKey == byKeyWas[key := (if key in byKeyWas then byKeyWas[key] else []) + [p]];
      } else {
        grouped := grouped + [Group([p], false)];
      }
      BucketStep(keysWere, byKeyWas, planned, c, i, keys, byKey);
    }
    assert planned[..|planned|] == planned;
    grouped := AppendChunks(grouped, keys, byKey, limit, planned, c);
    BucketedKeys(keys, byKey, planned, c);
  }

  method AppendChunks(singles: seq<Group>, keys: seq<Key>, byKey: map<Key, seq<Planned>>, limit: nat,
                      ghost planned: seq<Planned>, ghost c: map<string, bool>)
    returns (grouped: seq<Group>)
    requires limit > 0 && Bucketed(keys, byKey, planned, c)
    ensures grouped == singles + Engagements(keys, planned, c, limit)
  {
    hide Chunks, Candidates, Keys;
    grouped := singles;
    for k := 0 to |keys|
      invariant grouped == singles + Engagements(keys[..k], planned, c, limit)
    {
      assert keys[..k + 1][..k] == keys[..k];
      var chunks := ChunkCandidates(byKey[keys[k]], limit);
      grouped := grouped + chunks;
    }
    assert keys[..|keys|] == keys;
  }

  method ChunkCandidates(candidates: seq<Planned>, limit: nat) returns (chunks: seq<Group>)
    requires limit > 0
    ensures chunks == Chunks(candidates, limit)
  {
    chunks := [];
    var start := 0;
    while start < |candidates|
      invariant chunks + Chunks(if start <= |candidates| then candidates[start..] else [], limit)
        == Chunks(candidates, limit)
    {
      var stop := if start + limit <= |candidates| then start + limit else |candidates|;
      var chunk := candidates[start..stop];
      ghost var rest := candidates[start..];
      assert chunk == if |rest| <= limit then rest else rest[..limit];
      if |rest| > limit {
        assert rest[limit..] == candidates[start + limit..];
      }
      chunks := chunks + [Group(chunk, true)];
      start := start + limit;
    }
  }

  // ---------------------------------------------------------------- properties of the groups

  /** What every group of a heartbeat satisfies. */
  ghost predicate WellFormed(g: Group, c: map<string, bool>, limit: nat) {
    && g.members != []
    && (forall i :: 0 <= i < |g.members| ==>
          && g.members[i].executor == g.members[0].executor && g.members[i].base == g.members[0].base
          && (g.engagement <==> g.members[i].executor in c && c[g.members[i].executor]))
    && |g.members| <= (if g.engagement then limit else 1)
  }

  lemma {:induction false} MembersConcat(a: seq<Group>, b: seq<Group>)
    ensures Members(a + b) == Members(a) + Members(b)
  {
    if b == [] {
      assert a + b == a;
    } else {
      var front := b[..|b| - 1];
      MembersConcat(a, front);
      assert (a + b)[..|a + b| - 1] == a + front;
      assert (a + b)[|a + b| - 1] == b[|b| - 1];
    }
  }

  lemma {:induction false} GroupsOfConcat(a: seq<Group>, b: seq<Group>, key: Key)
    ensures GroupsOf(a + b, key) == GroupsOf(a, key) + GroupsOf(b, key)
  {
    if b == [] {
      assert a + b == a;
    } else {
      var front := b[..|b| - 1];
      GroupsOfConcat(a, front, key);
      assert (a + b)[..|a + b| - 1] == a + front;
      assert (a + b)[|a + b| - 1] == b[|b| - 1];
    }
  }

  lemma {:induction false} ChunksConserve(candidates: seq<Planned>, limit: nat)
    requires limit > 0
    ensures Members(Chunks(candidates, limit)) == candidates
    decreases |candidates|
  {
    if candidates == [] {
    } else if |candidates| <= limit {
      assert Members([Group(candidates, true)]) == Members([]) + candidates;
    } else {
      var first, rest := Group(candidates[..limit], true), candidates[limit..];
      ChunksConserve(rest, limit);
      var more := Chunks(rest, limit);
      assert Chunks(candidates, limit) == [first] + more;
      assert Members([first]) == Members([]) + first.members == first.members;
      hide Chunks, Members;
      MembersConcat([first], more);
      assert candidates == first.members + rest;
    }
  }

  lemma {:induction false} ChunksTell(candidates: seq<Planned>, limit: nat)
    requires limit > 0
    ensures forall i :: 0 <= i < |Chunks(candidates, limit)| ==>
      var g := Chunks(candidates, limit)[i];
      && g.engagement && 0 < |g.members| <= limit
      && (i < |Chunks(candidates, limit)| - 1 ==> |g.members| == limit)
    decreases |candidates|
  {
    if |candidates| > limit {
      ChunksTell(candidates[limit..], limit);
    }
  }

  lemma {:induction false} ChunksDraw(candidates: seq<Planned>, limit: nat)
    requires limit > 0
    ensures forall g, p :: g in Chunks(candidates, limit) && p in g.members ==> p in candidates
    decreases |candidates|
  {
    if |candidates| > limit {
      var rest := candidates[limit..];
      ChunksDraw(rest, limit);
      assert forall p :: p in rest ==> p in candidates;
      assert forall p :: p in candidates[..limit] ==> p in candidates;
      assert Chunks(candidates, limit) == [Group(candidates[..limit], true)] + Chunks(rest, limit);
    }
  }

  lemma {:induction false} CandidatesTell(planned: seq<Planned>, c: map<string, bool>, key: Key)
    ensures forall p :: p in Candidates(planned, c, key) ==> Capable(p, c) && KeyOf(p) == key
  {
    if planned != [] {
      CandidatesTell(planned[..|planned| - 1], c, key);
    }
  }

  predicate DistinctKeys(keys: seq<Key>) {
    forall i, j :: 0 <= i < j < |keys| ==> keys[i] != keys[j]
  }

  lemma DistinctFront(keys: seq<Key>)
    requires DistinctKeys(keys) && keys != []
    ensures DistinctKeys(keys[..|keys| - 1]) && keys[|keys| - 1] !in keys[..|keys| - 1]
    ensures forall key :: key in keys <==> key in keys[..|keys| - 1] || key == keys[|keys| - 1]
  {
    assert keys == keys[..|keys| - 1] + [keys[|keys| - 1]];
  }

  lemma {:induction false} KeysAreDistinct(planned: seq<Planned>, c: map<string, bool>)
    ensures DistinctKeys(Keys(planned, c))
  {
    if planned != [] {
      KeysAreDistinct(planned[..|planned| - 1], c);
    }
  }

  lemma {:induction false} SinglesAreWellFormed(planned: seq<Planned>, c: map<string, bool>, limit: nat)
    ensures forall g :: g in Singles(planned, c) ==> WellFormed(g, c, limit) && !g.engagement
  {
    if planned != [] {
      SinglesAreWellFormed(planned[..|planned| - 1], c, limit);
    }
  }

  lemma ChunkIsWellFormed(candidates: seq<Planned>, c: map<string, bool>, limit: nat, key: Key)
    requires limit > 0 && forall p :: p in candidates ==> Capable(p, c) && KeyOf(p) == key
    ensures forall g :: g in Chunks(candidates, limit) ==>
      WellFormed(g, c, limit) && g.engagement && KeyOf(g.members[0]) == key
  {
    hide Chunks, Members;
    ChunksTell(candidates, limit);
    ChunksDraw(candidates, limit);
    forall g | g in Chunks(candidates, limit)
      ensures WellFormed(g, c, limit) && KeyOf(g.members[0]) == key
    {
      forall i | 0 <= i < |g.members|
        ensures Capable(g.members[i], c) && KeyOf(g.members[i]) == key
      {
        assert g.members[i] in g.members;
      }
    }
  }

  lemma {:induction false} EngagementsAreWellFormed(keys: seq<Key>, planned: seq<Planned>, c: map<string, bool>,
                                                    limit: nat)
    requires limit > 0
    ensures forall g :: g in Engagements(keys, planned, c, limit) ==> WellFormed(g, c, limit) && g.engagement
  {
    hide WellFormed, Chunks, Candidates;
    if keys != [] {
      EngagementsAreWellFormed(keys[..|keys| - 1], planned, c, limit);
      var key := keys[|keys| - 1];
      CandidatesTell(planned, c, key);
      ChunkIsWellFormed(Candidates(planned, c, key), c, limit, key);
    }
  }

  /** No group is empty; an engagement group holds capable dispatches of one executor and one base, at most
      `limit` of them; any other group is one dispatch of an executor without the capability. */
  lemma GroupsAreWellFormed(planned: seq<Planned>, c: map<string, bool>, limit: nat)
    requires limit > 0
    ensures forall g :: g in Groups(planned, c, limit) ==> WellFormed(g, c, limit)
  {
    SinglesAreWellFormed(planned, c, limit);
    EngagementsAreWellFormed(Keys(planned, c), planned, c, limit);
  }

  // ---------------------------------------------------------------- each dispatch once

  lemma CountAppend(s: seq<Planned>, x: Planned, p: Planned)
    ensures multiset(s + [x])[p] == multiset(s)[p] + (if x == p then 1 else 0)
  {
  }

  function Incapable(planned: seq<Planned>, c: map<string, bool>): seq<Planned> {
    if planned == [] then []
    else
      var last := planned[|planned| - 1];
      Incapable(planned[..|planned| - 1], c) + (if Capable(last, c) then [] else [last])
  }

  lemma {:induction false} SinglesMembers(planned: seq<Planned>, c: map<string, bool>)
    ensures Members(Singles(planned, c)) == Incapable(planned, c)
  {
    hide Capable;
    if planned != [] {
      var front, last := planned[..|planned| - 1], planned[|planned| - 1];
      SinglesMembers(front, c);
      var before := Singles(front, c);
      if Capable(last, c) {
        assert before + [] == before;
      } else {
        var added := before + [Group([last], false)];
        assert added[..|added| - 1] == before;
      }
    }
  }

  lemma {:induction false} IncapableCount(planned: seq<Planned>, c: map<string, bool>, p: Planned)
    ensures multiset(Incapable(planned, c))[p] == if Capable(p, c) then 0 else multiset(planned)[p]
  {
    hide Capable;
    if planned != [] {
      var front, last := planned[..|planned| - 1], planned[|planned| - 1];
      IncapableCount(front, c, p);
      assert Incapable(planned, c) == Incapable(front, c) + (if Capable(last, c) then [] else [last]);
      hide Incapable;
      assert planned == front + [last];
      CountAppend(front, last, p);
      if Capable(last, c) {
        assert Incapable(front, c) + [] == Incapable(front, c);
      } else {
        CountAppend(Incapable(front, c), last, p);
      }
    }
  }

  lemma {:induction false} CandidatesCount(planned: seq<Planned>, c: map<string, bool>, key: Key, p: Planned)
    ensures multiset(Candidates(planned, c, key))[p]
         == if Capable(p, c) && KeyOf(p) == key then multiset(planned)[p] else 0
  {
    if planned != [] {
      var front, last := planned[..|planned| - 1], planned[|planned| - 1];
      CandidatesCount(front, c, key, p);
      assert planned == front + [last];
      CountAppend(front, last, p);
      if Capable(last, c) && KeyOf(last) == key {
        CountAppend(Candidates(front, c, key), last, p);
      } else {
        assert Candidates(front, c, key) + [] == Candidates(front, c, key);
      }
    }
  }

  lemma {:induction false} EngagementsCount(keys: seq<Key>, planned: seq<Planned>, c: map<string, bool>, limit: nat,
                                            p: Planned)
    requires limit > 0 && DistinctKeys(keys)
    ensures multiset(Members(Engagements(keys, planned, c, limit)))[p]
         == if Capable(p, c) && KeyOf(p) in keys then multiset(planned)[p] else 0
  {
    hide Capable, KeyOf, Candidates, Chunks, DistinctKeys;
    if keys != [] {
      DistinctFront(keys);
      var front, key := keys[..|keys| - 1], keys[|keys| - 1];
      EngagementsCount(front, planned, c, limit, p);
      CandidatesCount(planned, c, key, p);
      ChunksConserve(Candidates(planned, c, key), limit);
      MembersConcat(Engagements(front, planned, c, limit), Chunks(Candidates(planned, c, key), limit));
    }
  }

  lemma {:induction false} CapableIsKeyed(planned: seq<Planned>, c: map<string, bool>, p: Planned)
    ensures p in planned && Capable(p, c) ==> KeyOf(p) in Keys(planned, c)
  {
    if planned != [] {
      CapableIsKeyed(planned[..|planned| - 1], c, p);
    }
  }

  /** The groups together hold exactly the planned dispatches, each as often as it was planned. */
  lemma GroupsConserve(planned: seq<Planned>, c: map<string, bool>, limit: nat)
    requires limit > 0
    ensures multiset(Members(Groups(planned, c, limit))) == multiset(planned)
  {
    hide Capable, Keys, Singles, Engagements, Members;
    var keys := Keys(planned, c);
    KeysAreDistinct(planned, c);
    MembersConcat(Singles(planned, c), Engagements(keys, planned, c, limit));
    forall p: Planned
      ensures multiset(Members(Groups(planned, c, limit)))[p] == multiset(planned)[p]
    {
      SinglesMembers(planned, c);
      IncapableCount(planned, c, p);
      EngagementsCount(keys, planned, c, limit, p);
      CapableIsKeyed(planned, c, p);
    }
  }

  // ---------------------------------------------------------------- planning order survives

  lemma {:induction false} NoSingleOfKey(singles: seq<Group>, key: Key)
    requires forall g :: g in singles ==> !g.engagement
    ensures GroupsOf(singles, key) == []
  {
    if singles != [] {
      NoSingleOfKey(singles[..|singles| - 1], key);
      assert singles[|singles| - 1] in singles;
    }
  }

  lemma {:induction false} AllOfKey(chunks: seq<Group>, of: Key, key: Key)
    requires forall g :: g in chunks ==> g.engagement && g.members != [] && KeyOf(g.members[0]) == of
    ensures GroupsOf(chunks, key) == if of == key then chunks else []
  {
    if chunks != [] {
      AllOfKey(chunks[..|chunks| - 1], of, key);
      assert chunks[|chunks| - 1] in chunks;
    }
  }

  lemma {:induction false} EngagementsOfKey(keys: seq<Key>, planned: seq<Planned>, c: map<string, bool>, limit: nat,
                                            key: Key)
    requires limit > 0 && DistinctKeys(keys)
    ensures GroupsOf(Engagements(keys, planned, c, limit), key)
         == if key in keys then Chunks(Candidates(planned, c, key), limit) else []
  {
    hide Capable, KeyOf, Candidates, Chunks, WellFormed, DistinctKeys, Members;
    if keys != [] {
      DistinctFront(keys);
      var front, of := keys[..|keys| - 1], keys[|keys| - 1];
      EngagementsOfKey(front, planned, c, limit, key);
      CandidatesTell(planned, c, of);
      ChunkIsWellFormed(Candidates(planned, c, of), c, limit, of);
      ChunksTell(Candidates(planned, c, of), limit);
      var before, chunks := Engagements(front, planned, c, limit), Chunks(Candidates(planned, c, of), limit);
      AllOfKey(chunks, of, key);
      GroupsOfConcat(before, chunks, key);
      assert Engagements(keys, planned, c, limit) == before + chunks;
      hide GroupsOf, Engagements;
      if of == key {
        assert key !in front;
        assert [] + chunks == chunks;
      } else {
        assert GroupsOf(before, key) + [] == GroupsOf(before, key);
      }
    }
  }

  /** The chunks of one key, put one after the other, are that key's dispatches in planning order, and every
      chunk but the last is full. */
  lemma ChunksKeepPlanningOrder(planned: seq<Planned>, c: map<string, bool>, limit: nat, key: Key)
    requires limit > 0
    ensures Members(GroupsOf(Groups(planned, c, limit), key)) == Candidates(planned, c, key)
    ensures var s := GroupsOf(Groups(planned, c, limit), key);
      forall i :: 0 <= i < |s| - 1 ==> |s[i].members| == limit
  {
    hide WellFormed, Capable, Singles, Engagements, Candidates, Keys;
    var keys := Keys(planned, c);
    KeysAreDistinct(planned, c);
    SinglesAreWellFormed(planned, c, limit);
    NoSingleOfKey(Singles(planned, c), key);
    EngagementsOfKey(keys, planned, c, limit, key);
    GroupsOfConcat(Singles(planned, c), Engagements(keys, planned, c, limit), key);
    var candidates := Candidates(planned, c, key);
    var s := GroupsOf(Groups(planned, c, limit), key);
    assert s == [] + GroupsOf(Engagements(keys, planned, c, limit), key);
    KeysAreCandidates(planned, c, key);
    assert candidates == [] ==> Chunks(candidates, limit) == [];
    assert s == Chunks(candidates, limit);
    hide GroupsOf, Groups, Chunks, Members;
    ChunksTell(candidates, limit);
    ChunksConserve(candidates, limit);
  }

  /** No earlier dispatch is for that executor. */
  ghost predicate FirstOf(planned: seq<Planned>, i: nat)
    requires i < |planned|
  {
    forall k :: 0 <= k < i ==> planned[k].executor != planned[i].executor
  }

  lemma {:induction false} NamedFirst(planned: seq<Planned>, probe: (string, nat) -> bool, name: string)
    requires name in Capabilities(planned, probe)
    ensures exists k :: 0 <= k < |planned| && planned[k].executor == name
  {
    var front, last := planned[..|planned| - 1], planned[|planned| - 1];
    if name == last.executor {
      assert planned[|front|].executor == name;
    } else {
      NamedFirst(front, probe, name);
      var k :| 0 <= k < |front| && front[k].executor == name;
      assert planned[k].executor == name;
    }
  }

  /** The capability kept for an executor is what the probe answered at its first dispatch. */
  lemma {:induction false} CapabilitiesTell(planned: seq<Planned>, probe: (string, nat) -> bool, i: nat)
    requires i < |planned| && FirstOf(planned, i)
    ensures planned[i].executor in Capabilities(planned, probe)
    ensures Capabilities(planned, probe)[planned[i].executor] == probe(planned[i].executor, i)
    decreases |planned|
  {
    var front, name := planned[..|planned| - 1], planned[i].executor;
    if i < |front| {
      CapabilitiesTell(front, probe, i);
    } else if name in Capabilities(front, probe) {
      NamedFirst(front, probe, name);
      assert false;
    }
  }

  /** The candidates of an executor and base are picked one by one, in planning order: the dispatches planned for both,
      if the executor is capable. */
  lemma {:induction false} CandidatesInOrder(front: seq<Planned>, p: Planned, back: seq<Planned>, c: map<string, bool>,
                                             key: Key)
    ensures Candidates([], c, key) == []
    ensures Candidates(front + [p] + back, c, key) ==
      Candidates(front, c, key)
      + (if p.executor == key.executor && p.base == key.base && p.executor in c && c[p.executor] then [p] else [])
      + Candidates(back, c, key)
  {
    var all := front + [p] + back;
    if back == [] {
      assert all == front + [p] && all[..|front|] == front;
    } else {
      var less := back[..|back| - 1];
      CandidatesInOrder(front, p, less, c, key);
      assert all[..|all| - 1] == front + [p] + less;
      assert Candidates(back, c, key) ==
        Candidates(less, c, key) + Candidates(back, c, key)[|Candidates(less, c, key)|..];
      hide Capable, KeyOf;
    }
  }

  /** What a heartbeat sends out. Every group is for one executor and one base; it is an engagement exactly if the
      executor had the capability when it was first planned, and then has at most twice as many members as either
      setting allows. All engagements of one executor and base but the last are full. */
  lemma PlanTells(planned: seq<Planned>, probe: (string, nat) -> bool, engagementSize: nat, maxPairs: nat)
    requires engagementSize > 0 && maxPairs > 0
    ensures var groups := Groups(planned, Capabilities(planned, probe), EngagementLimit(engagementSize, maxPairs));
      && multiset(Members(groups)) == multiset(planned)
      && (forall g :: g in groups ==>
            && g.members != []
            && (forall i :: 0 <= i < |g.members| ==>
                  g.members[i].executor == g.members[0].executor && g.members[i].base == g.members[0].base)
            && (g.engagement ==> |g.members| <= 2 * engagementSize && |g.members| <= 2 * maxPairs)
            && (!g.engagement ==> |g.members| == 1)
            && forall i :: 0 <= i < |planned| && planned[i].executor == g.members[0].executor && FirstOf(planned, i) ==>
                 g.engagement == probe(planned[i].executor, i))
      && (forall key ::
            var chunks := GroupsOf(groups, key);
            forall i :: 0 <= i < |chunks| - 1 ==>
              |chunks[i].members| == if engagementSize <= maxPairs then 2 * engagementSize else 2 * maxPairs)
  {
    var c, limit := Capabilities(planned, probe), EngagementLimit(engagementSize, maxPairs);
    GroupsConserve(planned, c, limit);
    GroupsAreWellFormed(planned, c, limit);
    forall i | 0 <= i < |planned| && FirstOf(planned, i)
      ensures planned[i].executor in c && c[planned[i].executor] == probe(planned[i].executor, i)
    {
      CapabilitiesTell(planned, probe, i);
    }
    forall key
      ensures var chunks := GroupsOf(Groups(planned, c, limit), key);
        forall i :: 0 <= i < |chunks| - 1 ==> |chunks[i].members| == limit
    {
      ChunksKeepPlanningOrder(planned, c, limit, key);
    }
    hide Groups, Capabilities, Members, GroupsOf, FirstOf;
  }

  // ---------------------------------------------------------------- collecting outcomes

  /** The outcome repeats what the dispatch returned, absent texts being empty; a dispatch that raised has failed, with
      the exception's message as its error. */
  ghost predicate Reports(outcome: Outcome, p: Planned, answer: Answer) {
    && outcome.planned == p
    && match answer
       case Returned(success, issueUrl, error, sessionRef, attemptDir) =>
         && outcome.success == success
         && outcome.issueUrl == (if issueUrl == None then "" else issueUrl.value)
         && outcome.error == (if error == None then "" else error.value)
         && outcome.sessionRef == sessionRef && outcome.attemptDir == attemptDir
       case Raised(message) =>
         && !outcome.success && outcome.error == "Dispatch raised exception: " + message
         && outcome.issueUrl == "" && outcome.sessionRef == None && outcome.attemptDir == None
  }

  /** The outcome of a job id is built from a member with that id and the answer of that member's group. */
  ghost predicate FromItsGroup(outcome: Outcome, id: string, groups: seq<Group>, answers: nat -> Answer) {
    exists g: nat, j: nat ::
      && g < |groups| && j < |groups[g].members|
      && groups[g].members[j].jobId == id && Reports(outcome, groups[g].members[j], answers(g))
  }

  /** Futures complete in any order; whether each returns or raises, every member of its group gets an outcome. */
  method Collect(groups: seq<Group>, answers: nat -> Answer) returns (outcomes: map<string, Outcome>)
    ensures forall id :: id in outcomes ==> FromItsGroup(outcomes[id], id, groups, answers)
    ensures forall g, j :: 0 <= g < |groups| && 0 <= j < |groups[g].members| ==> groups[g].members[j].jobId in outcomes
  {
    outcomes := map[];
    var pending: set<nat> := {};
    for g := 0 to |groups|
      invariant forall h: nat :: h in pending <==> h < g
    {
      pending := pending + {g};
    }
    while pending != {}
      invariant forall g :: g in pending ==> 0 <= g < |groups|
      invariant forall id :: id in outcomes ==> FromItsGroup(outcomes[id], id, groups, answers)
      invariant forall g, j :: 0 <= g < |groups| && g !in pending && 0 <= j < |groups[g].members| ==>
        groups[g].members[j].jobId in outcomes
      decreases pending
    {
      var g: nat :| g in pending;
      pending := pending - {g};
      ghost var before := outcomes;
      for j := 0 to |groups[g].members|
        invariant forall id :: id in before ==> id in outcomes
        invariant forall id :: id in outcomes ==> FromItsGroup(outcomes[id], id, groups, answers)
        invariant forall i :: 0 <= i < j ==> groups[g].members[i].jobId in outcomes
      {
        var p := groups[g].members[j];
        assert Reports(OutcomeOf(p, answers(g)), p, answers(g));
        outcomes := outcomes[p.jobId := OutcomeOf(p, answers(g))];
      }
    }
  }

  method ExecuteDispatches(planned: seq<Planned>, engagementSize: nat, maxPairs: nat, probe: (string, nat) -> bool,
                           answers: nat -> Answer)
    returns (outcomes: map<string, Outcome>)
    requires engagementSize > 0 && maxPairs > 0
    ensures outcomes.Keys == set p | p in planned :: p.jobId
    ensures forall id :: id in outcomes ==>
      FromItsGroup(outcomes[id], id,
                   Groups(planned, Capabilities(planned, probe), EngagementLimit(engagementSize, maxPairs)), answers)
  {
    var limit := EngagementLimit(engagementSize, maxPairs);
    var grouped := GroupDispatches(planned, limit, probe);
    outcomes := Collect(grouped, answers);
    ghost var c := Capabilities(planned, probe);
    hide Groups, Capabilities, Members, Reports;
    GroupsConserve(planned, c, limit);
    GroupedArePlanned(planned, grouped);
    forall p | p in planned
      ensures p.jobId in outcomes
    {
      var g, j := InSomeGroup(grouped, p);
    }
    forall id | id in outcomes
      ensures exists p :: p in planned && p.jobId == id
    {
      var g: nat, j: nat :| g < |grouped| && j < |grouped[g].members| && grouped[g].members[j].jobId == id;
      assert grouped[g].members[j] in planned;
    }
  }

  lemma GroupedArePlanned(planned: seq<Planned>, groups: seq<Group>)
    requires multiset(Members(groups)) == multiset(planned)
    ensures forall p :: p in planned ==> p in Members(groups)
    ensures forall g, j :: 0 <= g < |groups| && 0 <= j < |groups[g].members| ==> groups[g].members[j] in planned
  {
    hide Members;
    forall p | p in planned ensures p in Members(groups) {
      assert p in multiset(planned);
    }
    forall g, j | 0 <= g < |groups| && 0 <= j < |groups[g].members| ensures groups[g].members[j] in planned {
      AreMembers(groups, g, j);
      assert groups[g].members[j] in multiset(planned);
    }
  }

  lemma {:induction false} InSomeGroup(groups: seq<Group>, p: Planned) returns (g: nat, j: nat)
    requires p in Members(groups)
    ensures g < |groups| && j < |groups[g].members| && groups[g].members[j] == p
  {
    var last := |groups| - 1;
    if p in groups[last].members {
      g := last;
      j :| 0 <= j < |groups[last].members| && groups[last].members[j] == p;
    } else {
      g, j := InSomeGroup(groups[..last], p);
    }
  }

  lemma {:induction false} AreMembers(groups: seq<Group>, g: nat, j: nat)
    requires g < |groups| && j < |groups[g].members|
    ensures groups[g].members[j] in Members(groups)
  {
    if g < |groups| - 1 {
      AreMembers(groups[..|groups| - 1], g, j);
    }
  }

  // ---------------------------------------------------------------- one group, one outcome

  predicate DistinctJobs(planned: seq<Planned>) {
    forall i, j :: 0 <= i < j < |planned| ==> planned[i].jobId != planned[j].jobId
  }

  lemma {:induction false} AtMostOnce(planned: seq<Planned>, p: Planned)
    requires DistinctJobs(planned)
    ensures multiset(planned)[p] <= 1
  {
    if planned != [] {
      var front, last := planned[..|planned| - 1], planned[|planned| - 1];
      AtMostOnce(front, p);
      assert planned == front + [last];
      assert last !in front;
    }
  }

  lemma CountTwice(s: seq<Planned>, i: nat, j: nat)
    requires i < j < |s| && s[i] == s[j]
    ensures multiset(s)[s[i]] >= 2
  {
    assert s == s[..j] + s[j..];
    assert s[i] in s[..j] && s[j] in s[j..] by {
      assert s[..j][i] == s[i] && s[j..][0] == s[j];
    }
  }

  lemma {:induction false} SharedMemberCountsTwice(groups: seq<Group>, g: nat, j: nat, h: nat, k: nat)
    requires g < |groups| && j < |groups[g].members| && h < |groups| && k < |groups[h].members|
    requires groups[g].members[j] == groups[h].members[k] && (g < h || (g == h && j < k))
    ensures multiset(Members(groups))[groups[g].members[j]] >= 2
  {
    var front, last := groups[..|groups| - 1], groups[|groups| - 1];
    var p := groups[g].members[j];
    assert multiset(Members(groups)) == multiset(Members(front)) + multiset(last.members);
    if h < |groups| - 1 {
      SharedMemberCountsTwice(front, g, j, h, k);
    } else if g < h {
      AreMembers(front, g, j);
      assert p in Members(front) && p in last.members;
    } else {
      CountTwice(last.members, j, k);
    }
  }

  /** With distinct job ids, every planned dispatch sits at exactly one place of exactly one group. */
  lemma OnePlaceEach(planned: seq<Planned>, c: map<string, bool>, limit: nat, i: nat) returns (g: nat, j: nat)
    requires limit > 0 && i < |planned| && DistinctJobs(planned)
    ensures var groups := Groups(planned, c, limit);
      && g < |groups| && j < |groups[g].members| && groups[g].members[j] == planned[i]
      && (forall h: nat, k: nat ::
            (h < |groups| && k < |groups[h].members| && groups[h].members[k].jobId == planned[i].jobId) ==>
            h == g && k == j)
  {
    hide Groups, Members;
    var groups := Groups(planned, c, limit);
    var p := planned[i];
    GroupsConserve(planned, c, limit);
    assert p in multiset(planned);
    assert p in Members(groups);
    g, j := InSomeGroup(groups, p);
    AtMostOnce(planned, p);
    forall h: nat, k: nat | h < |groups| && k < |groups[h].members| && groups[h].members[k].jobId == p.jobId
      ensures h == g && k == j
    {
      AreMembers(groups, h, k);
      assert groups[h].members[k] in multiset(planned);
      assert groups[h].members[k] == p;
      if g < h || (g == h && j < k) {
        SharedMemberCountsTwice(groups, g, j, h, k);
      } else if h < g || k < j {
        SharedMemberCountsTwice(groups, h, k, g, j);
      }
    }
  }

  /** With distinct job ids, the outcome collected for a planned dispatch is its own: the dispatch itself with
      the answer of the one group that holds it. */
  lemma OwnOutcome(planned: seq<Planned>, c: map<string, bool>, limit: nat, answers: nat -> Answer, i: nat,
                   outcome: Outcome)
    requires limit > 0 && i < |planned| && DistinctJobs(planned)
    requires FromItsGroup(outcome, planned[i].jobId, Groups(planned, c, limit), answers)
    ensures exists g: nat :: g < |Groups(planned, c, limit)| && planned[i] in Groups(planned, c, limit)[g].members
                             && Reports(outcome, planned[i], answers(g))
    ensures outcome.planned == planned[i]
  {
    hide Groups;
    var g, j := OnePlaceEach(planned, c, limit, i);
    var groups := Groups(planned, c, limit);
    assert planned[i] in groups[g].members;
    assert Reports(outcome, planned[i], answers(g));
  }
}
