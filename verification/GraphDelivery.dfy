/** Delivery of a finished graph (scripts/runtime/graph_delivery.py): the commit that contains every node's
    result, the review branch that publishes it, and the removal of the transport refs that fed it.

    Ancestry is an abstract partial order and emptiness of a commit an abstract predicate. The heads of the
    remote are a listing of parsed ref names, which others may change between any two contacts of a call. */
module GraphDelivery {
  import opened Wrappers

  type Sha = string

  /** gddp/result-<job>-<job>-<node>-attempt-<n>-<nonce>, gddp/attempt-<job>-attempt-<n>, review/<project>, or
      any other head. */
  datatype Ref =
    | ResultRef(jobId: string, node: string, attempt: nat, nonce: string)
    | AttemptRef(jobId: string, attempt: nat)
    | ReviewRef(project: string)
    | OtherRef(name: string)

  datatype Head = Head(name: Ref, sha: Sha)

  datatype Error =
    | NoResults
    | AllEmpty
    | Forked(divergent: seq<Head>)
    | PushFailed
    | Unverifiable
    | NotPublished
    | NotDelivered

  /** --is-ancestor on commits of one repository. */
  ghost predicate Ancestry(ancestor: (Sha, Sha) -> bool) {
    && (forall a :: ancestor(a, a))
    && (forall a, b :: ancestor(a, b) && ancestor(b, a) ==> a == b)
    && (forall a, b, c :: ancestor(a, b) && ancestor(b, c) ==> ancestor(a, c))
  }

  predicate DistinctNames(heads: seq<Head>) {
    forall i, j :: 0 <= i < j < |heads| ==> heads[i].name != heads[j].name
  }

  function Lookup(heads: seq<Head>, name: Ref): (sha: Option<Sha>)
    ensures sha.Some? ==> Head(name, sha.value) in heads
    ensures sha.None? ==> forall h :: h in heads ==> h.name != name
  {
    if heads == [] then None
    else if heads[0].name == name then Some(heads[0].sha)
    else Lookup(heads[1..], name)
  }

  function Select(heads: seq<Head>, keep: Head -> bool): (r: seq<Head>)
    ensures forall h :: h in r <==> h in heads && keep(h)
  {
    if heads == [] then [] else (if keep(heads[0]) then [heads[0]] else []) + Select(heads[1..], keep)
  }

  /** Result heads of this graph's nodes. */
  function Scoped(heads: seq<Head>, nodes: set<string>): seq<Head> {
    Select(heads, (h: Head) => h.name.ResultRef? && h.name.node in nodes)
  }

  function NonEmpty(heads: seq<Head>, nodes: set<string>, empty: Sha -> bool): seq<Head> {
    Select(Scoped(heads, nodes), (h: Head) => !empty(h.sha))
  }

  predicate ContainsAll(sha: Sha, heads: seq<Head>, ancestor: (Sha, Sha) -> bool) {
    forall h :: h in heads ==> sha == h.sha || ancestor(h.sha, sha)
  }

  /** The first candidate that contains all of them. */
  function FirstContainingAll(candidates: seq<Head>, all: seq<Head>, ancestor: (Sha, Sha) -> bool): (r: Option<Sha>)
    ensures r.Some? ==> ContainsAll(r.value, all, ancestor) && exists h :: h in candidates && h.sha == r.value
    ensures r.None? ==> forall h :: h in candidates ==> !ContainsAll(h.sha, all, ancestor)
  {
    if candidates == [] then None
    else if ContainsAll(candidates[0].sha, all, ancestor) then Some(candidates[0].sha)
    else FirstContainingAll(candidates[1..], all, ancestor)
  }

  /** find_delivery_commit */
  function FindDeliveryCommit(heads: seq<Head>, nodes: set<string>, ancestor: (Sha, Sha) -> bool, empty: Sha -> bool)
    : Result<Sha, Error>
  {
    var nonEmpty := NonEmpty(heads, nodes, empty);
    if Scoped(heads, nodes) == [] then Failure(NoResults)
    else if nonEmpty == [] then Failure(AllEmpty)
    else
      match FirstContainingAll(nonEmpty, nonEmpty, ancestor)
      case Some(sha) => Success(sha)
      case None => Failure(Forked(nonEmpty))
  }

  predicate IsResult(h: Head, nodes: set<string>, empty: Sha -> bool) {
    h.name.ResultRef? && h.name.node in nodes && !empty(h.sha)
  }

  /** The commit is the result of some node and every other non-empty result is among its ancestors. */
  predicate IsGreatest(sha: Sha, heads: seq<Head>, nodes: set<string>, ancestor: (Sha, Sha) -> bool,
                       empty: Sha -> bool)
  {
    && (exists h :: h in heads && IsResult(h, nodes, empty) && h.sha == sha)
    && (forall h :: h in heads && IsResult(h, nodes, empty) ==> ancestor(h.sha, sha))
  }

  lemma NonEmptyAreResults(heads: seq<Head>, nodes: set<string>, empty: Sha -> bool)
    ensures forall h :: h in NonEmpty(heads, nodes, empty) <==> h in heads && IsResult(h, nodes, empty)
    ensures forall h :: h in Scoped(heads, nodes) <==> h in heads && h.name.ResultRef? && h.name.node in nodes
  {
  }

  /** A delivery commit is found exactly when the non-empty results have a greatest element, and it is that
      element; the three refusals tell the other cases apart. */
  lemma FoundIffGreatest(heads: seq<Head>, nodes: set<string>, ancestor: (Sha, Sha) -> bool, empty: Sha -> bool)
    requires Ancestry(ancestor)
    ensures var r := FindDeliveryCommit(heads, nodes, ancestor, empty);
      && (forall sha :: r == Success(sha) <==> IsGreatest(sha, heads, nodes, ancestor, empty))
      && (r == Failure(NoResults) <==> forall h :: h in heads ==> !(h.name.ResultRef? && h.name.node in nodes))
      && (r == Failure(AllEmpty) <==>
            && (exists h :: h in heads && h.name.ResultRef? && h.name.node in nodes)
            && (forall h :: h in heads ==> !IsResult(h, nodes, empty)))
      && (r.Failure? && r.error.Forked? ==>
            (forall h :: h in r.error.divergent <==> h in heads && IsResult(h, nodes, empty)))
      && (r.Failure? ==> r.error in {NoResults, AllEmpty} || r.error.Forked?)
  {
    NonEmptyAreResults(heads, nodes, empty);
    var r := FindDeliveryCommit(heads, nodes, ancestor, empty);
    var scoped, nonEmpty := Scoped(heads, nodes), NonEmpty(heads, nodes, empty);
    assert forall h :: h in nonEmpty ==> h in scoped;
    hide IsResult, Scoped, NonEmpty;
    assert scoped != [] ==> scoped[0] in scoped;
    assert nonEmpty != [] ==> nonEmpty[0] in nonEmpty;
    forall sha | IsGreatest(sha, heads, nodes, ancestor, empty)
      ensures r == Success(sha)
    {
      var h :| h in heads && IsResult(h, nodes, empty) && h.sha == sha;
      assert h in nonEmpty && ContainsAll(h.sha, nonEmpty, ancestor);
      var found := FirstContainingAll(nonEmpty, nonEmpty, ancestor);
      var g :| g in nonEmpty && g.sha == found.value;
      assert ancestor(sha, found.value) && ancestor(found.value, sha);
    }
    hide FirstContainingAll;
  }

  /** The listing order does not matter: the same heads give the same commit. */
  lemma OrderDoesNotMatter(a: seq<Head>, b: seq<Head>, nodes: set<string>, ancestor: (Sha, Sha) -> bool,
                           empty: Sha -> bool)
    requires Ancestry(ancestor) && forall h :: h in a <==> h in b
    ensures var r, s := FindDeliveryCommit(a, nodes, ancestor, empty), FindDeliveryCommit(b, nodes, ancestor, empty);
      r.Success? == s.Success? && (r.Success? ==> r == s)
  {
    hide FindDeliveryCommit;
    FoundIffGreatest(a, nodes, ancestor, empty);
    FoundIffGreatest(b, nodes, ancestor, empty);
    var r, s := FindDeliveryCommit(a, nodes, ancestor, empty), FindDeliveryCommit(b, nodes, ancestor, empty);
    var sha := if r.Success? then r.value else if s.Success? then s.value else "";
    assert IsGreatest(sha, a, nodes, ancestor, empty) <==> IsGreatest(sha, b, nodes, ancestor, empty);
    assert r == Success(sha) <==> IsGreatest(sha, a, nodes, ancestor, empty);
    assert s == Success(sha) <==> IsGreatest(sha, b, nodes, ancestor, empty);
  }

  // ---------------------------------------------------------------- publishing

  /** An unforced push moves a branch only forward. */
  function Pushed(heads: seq<Head>, name: Ref, sha: Sha): seq<Head> {
    Select(heads, (h: Head) => h.name != name) + [Head(name, sha)]
  }

  predicate FastForward(heads: seq<Head>, name: Ref, sha: Sha, ancestor: (Sha, Sha) -> bool) {
    var was := Lookup(heads, name);
    was.None? || ancestor(was.value, sha)
  }

  /** The push is taken exactly when the branch is new or stands at an ancestor of the commit. */
  lemma FastForwardTells(heads: seq<Head>, name: Ref, sha: Sha, ancestor: (Sha, Sha) -> bool)
    requires DistinctNames(heads)
    ensures FastForward(heads, name, sha, ancestor) <==>
      forall h :: h in heads && h.name == name ==> ancestor(h.sha, sha)
  {
    var was := Lookup(heads, name);
    if was.Some? {
      forall h | h in heads && h.name == name ensures h.sha == was.value {
        UniqueName(heads, h, Head(name, was.value));
      }
    }
  }

  function RequireDelivered(heads: seq<Head>, project: string, sha: Sha, ancestor: (Sha, Sha) -> bool): Option<Error> {
    var landed := Lookup(heads, ReviewRef(project));
    if landed.None? then Some(NotPublished)
    else if landed.value == sha || ancestor(sha, landed.value) then None
    else Some(NotDelivered)
  }

  function Names(heads: seq<Head>): (r: seq<Ref>)
    ensures forall name :: name in r <==> exists h :: h in heads && h.name == name
  {
    if heads == [] then [] else [heads[0].name] + Names(heads[1..])
  }

  /** The graph's result heads that were collected, and the listed attempt heads of their jobs. */
  function Targets(collected: seq<Head>, listed: seq<Head>, nodes: set<string>): seq<Ref> {
    var scoped := Scoped(collected, nodes);
    Names(scoped) + Names(Select(listed, (h: Head) =>
      h.name.AttemptRef? && exists s :: s in scoped && s.name.ResultRef? && s.name.jobId == h.name.jobId))
  }

  function Without(heads: seq<Head>, targets: seq<Ref>): seq<Head> {
    Select(heads, (h: Head) => h.name !in targets)
  }

  /** The answer of a cleanup from what its four reads saw: results collected, results searched, the review
      branch, and the attempt heads. */
  function CleanupSeen(collected: seq<Head>, searched: seq<Head>, reviewed: seq<Head>, listed: seq<Head>,
                       project: string, nodes: set<string>, delete: bool, accepted: bool,
                       ancestor: (Sha, Sha) -> bool, empty: Sha -> bool): Result<seq<Ref>, Error>
  {
    match FindDeliveryCommit(searched, nodes, ancestor, empty)
    case Failure(error) => Failure(error)
    case Success(sha) =>
      match RequireDelivered(reviewed, project, sha, ancestor)
      case Some(error) => Failure(error)
      case None =>
        var targets := Targets(collected, listed, nodes);
        if delete && targets != [] && !accepted then Failure(PushFailed) else Success(targets)
  }

  /** The answer when nobody else touches the remote. */
  function CleanupAnswer(heads: seq<Head>, project: string, nodes: set<string>, delete: bool, accepted: bool,
                         ancestor: (Sha, Sha) -> bool, empty: Sha -> bool): Result<seq<Ref>, Error> {
    CleanupSeen(heads, heads, heads, heads, project, nodes, delete, accepted, ancestor, empty)
  }

  /** What others make of the heads before the k-th contact. */
  type Drift = (nat, seq<Head>) -> seq<Head>

  function Seen(heads: seq<Head>, drift: Drift, k: nat): seq<Head> {
    if k == 0 then heads else drift(k, Seen(heads, drift, k - 1))
  }

  ghost predicate KeepsNamesDistinct(drift: Drift) {
    forall k, heads :: DistinctNames(heads) ==> DistinctNames(drift(k, heads))
  }

  lemma {:induction false} SeenIsDistinct(heads: seq<Head>, drift: Drift, k: nat)
    requires DistinctNames(heads) && KeepsNamesDistinct(drift)
    ensures DistinctNames(Seen(heads, drift, k))
  {
    if k > 0 {
      SeenIsDistinct(heads, drift, k - 1);
    }
  }

  class Remote {
    var heads: seq<Head>
    const ancestor: (Sha, Sha) -> bool
    const empty: Sha -> bool

    ghost predicate Valid()
      reads this
    {
      DistinctNames(heads) && Ancestry(ancestor)
    }

    constructor (heads: seq<Head>, ancestor: (Sha, Sha) -> bool, empty: Sha -> bool)
      requires DistinctNames(heads) && Ancestry(ancestor)
      ensures Valid() && this.heads == heads && this.ancestor == ancestor && this.empty == empty
    {
      this.heads, this.ancestor, this.empty := heads, ancestor, empty;
    }

    method Publish(project: string, nodes: set<string>, accepted: bool, drift: Drift) returns (r: Result<Sha, Error>)
      requires Valid() && KeepsNamesDistinct(drift)
      modifies this
      ensures Valid()
      ensures var found := FindDeliveryCommit(old(heads), nodes, ancestor, empty);
        var met := drift(1, old(heads));
        var branch := ReviewRef(project);
        if found.Failure? then r == found && heads == old(heads)
        else if !(accepted && forall h :: h in met && h.name == branch ==> ancestor(h.sha, found.value)) then
          r == Failure(PushFailed) && heads == met
        else
          && heads == drift(2, Pushed(met, branch, found.value))
          && r == if Lookup(heads, branch) == Some(found.value) then found else Failure(Unverifiable)
    {
      r := FindDeliveryCommit(heads, nodes, ancestor, empty);
      if r.Failure? {
        return;
      }
      heads := drift(1, heads);
      var branch := ReviewRef(project);
      FastForwardTells(heads, branch, r.value, ancestor);
      if !accepted || !FastForward(heads, branch, r.value, ancestor) {
        return Failure(PushFailed);
      }
      PushedTells(heads, branch, r.value);
      heads := Pushed(heads, branch, r.value);
      heads := drift(2, heads);
      if Lookup(heads, branch) != Some(r.value) {
        r := Failure(Unverifiable);
      }
    }

    method Cleanup(project: string, nodes: set<string>, delete: bool, accepted: bool, drift: Drift)
      returns (r: Result<seq<Ref>, Error>)
      requires Valid() && KeepsNamesDistinct(drift)
      modifies this
      ensures Valid()
      ensures r == CleanupSeen(old(heads), Seen(old(heads), drift, 1), Seen(old(heads), drift, 2),
                               Seen(old(heads), drift, 3), project, nodes, delete, accepted, ancestor, empty)
      ensures r.Success? && delete ==> heads == Without(Seen(old(heads), drift, 4), r.value)
      ensures r.Failure? || !delete ==> exists k :: 1 <= k <= 4 && heads == Seen(old(heads), drift, k)
    {
      hide FindDeliveryCommit, RequireDelivered, Targets;
      ghost var before := heads;
      SeenIsDistinct(before, drift, 1);
      SeenIsDistinct(before, drift, 2);
      SeenIsDistinct(before, drift, 3);
      SeenIsDistinct(before, drift, 4);
      var collected := heads;
      heads := drift(1, heads);
      assert heads == Seen(before, drift, 1);
      var found := FindDeliveryCommit(heads, nodes, ancestor, empty);
      if found.Failure? {
        return Failure(found.error);
      }
      heads := drift(2, heads);
      assert heads == Seen(before, drift, 2);
      var refusal := RequireDelivered(heads, project, found.value, ancestor);
      if refusal.Some? {
        return Failure(refusal.value);
      }
      heads := drift(3, heads);
      assert heads == Seen(before, drift, 3);
      var targets := Targets(collected, heads, nodes);
      if !delete {
        return Success(targets);
      }
      heads := drift(4, heads);
      assert heads == Seen(before, drift, 4);
      if targets != [] {
        if !accepted {
          return Failure(PushFailed);
        }
        SelectKeepsNames(heads, (h: Head) => h.name !in targets);
        heads := Without(heads, targets);
      } else {
        NothingWithout(heads);
      }
      return Success(targets);
    }
  }

  lemma {:induction false} SelectKeepsNames(heads: seq<Head>, keep: Head -> bool)
    requires DistinctNames(heads)
    ensures DistinctNames(Select(heads, keep))
  {
    if heads != [] {
      SelectKeepsNames(heads[1..], keep);
      var rest := Select(heads[1..], keep);
      assert forall h :: h in heads[1..] ==> h.name != heads[0].name;
      assert forall i :: 0 <= i < |rest| ==> rest[i] in heads[1..];
    }
  }

  lemma {:induction false} NothingWithout(heads: seq<Head>)
    ensures Without(heads, []) == heads
  {
    if heads != [] {
      NothingWithout(heads[1..]);
    }
  }

  lemma UniqueName(heads: seq<Head>, h: Head, g: Head)
    requires DistinctNames(heads) && h in heads && g in heads && h.name == g.name
    ensures h == g
  {
  }

  lemma PushedTells(heads: seq<Head>, name: Ref, sha: Sha)
    requires DistinctNames(heads)
    ensures DistinctNames(Pushed(heads, name, sha)) && Lookup(Pushed(heads, name, sha), name) == Some(sha)
    ensures forall h: Head :: h.name != name ==> (h in Pushed(heads, name, sha) <==> h in heads)
  {
    var rest := Select(heads, (h: Head) => h.name != name);
    SelectKeepsNames(heads, (h: Head) => h.name != name);
    var pushed := Pushed(heads, name, sha);
    assert DistinctNames(pushed) by {
      assert forall i :: 0 <= i < |rest| ==> rest[i] in rest;
    }
    assert pushed[|pushed| - 1] == Head(name, sha);
    var found := Lookup(pushed, name);
    if found.Some? {
      UniqueName(pushed, Head(name, found.value), Head(name, sha));
    }
  }

  // ---------------------------------------------------------------- nothing delivered is lost

  predicate IsTarget(h: Head, heads: seq<Head>, nodes: set<string>) {
    || (h.name.ResultRef? && h.name.node in nodes)
    || (h.name.AttemptRef?
        && exists s :: s in heads && s.name.ResultRef? && s.name.node in nodes && s.name.jobId == h.name.jobId)
  }

  lemma TargetsTell(heads: seq<Head>, nodes: set<string>)
    requires DistinctNames(heads)
    ensures forall h :: h in heads ==> (h.name in Targets(heads, heads, nodes) <==> IsTarget(h, heads, nodes))
    ensures forall name :: name in Targets(heads, heads, nodes) ==> name.ResultRef? || name.AttemptRef?
  {
    var scoped := Scoped(heads, nodes);
    var attempts := Select(heads, (h: Head) =>
      h.name.AttemptRef? && exists s :: s in scoped && s.name.ResultRef? && s.name.jobId == h.name.jobId);
    assert Targets(heads, heads, nodes) == Names(scoped) + Names(attempts);
    forall h | h in heads
      ensures h.name in Targets(heads, heads, nodes) <==> IsTarget(h, heads, nodes)
    {
      assert h.name in Names(scoped) <==> h in scoped;
      assert h.name in Names(attempts) <==> h in attempts;
    }
  }

  /** A name is a target exactly when it is a result of the graph that was collected, or an attempt that was listed and
      belongs to the job of such a result. */
  lemma TargetsSeenTell(collected: seq<Head>, listed: seq<Head>, nodes: set<string>, name: Ref)
    ensures name in Targets(collected, listed, nodes) <==>
      || (name.ResultRef? && name.node in nodes && exists g :: g in collected && g.name == name)
      || (name.AttemptRef? && (exists h :: h in listed && h.name == name)
          && exists s :: s in collected && s.name.ResultRef? && s.name.node in nodes && s.name.jobId == name.jobId)
  {
    var scoped := Scoped(collected, nodes);
    var attempts := Select(listed, (h: Head) =>
      h.name.AttemptRef? && exists s :: s in scoped && s.name.ResultRef? && s.name.jobId == h.name.jobId);
    assert Targets(collected, listed, nodes) == Names(scoped) + Names(attempts);
    NonEmptyAreResults(collected, nodes, sha => false);
    hide Scoped, Targets;
    assert name in Names(scoped) <==> exists g :: g in scoped && g.name == name;
    assert name in Names(attempts) <==> exists h :: h in attempts && h.name == name;
  }

  lemma TargetsAreTransport(collected: seq<Head>, listed: seq<Head>, nodes: set<string>)
    ensures forall name :: name in Targets(collected, listed, nodes) ==> name.ResultRef? || name.AttemptRef?
  {
  }

  /** The branch of a review is neither removed nor moved back. */
  predicate MovesForward(before: seq<Head>, after: seq<Head>, name: Ref, ancestor: (Sha, Sha) -> bool) {
    var was, now := Lookup(before, name), Lookup(after, name);
    was.Some? ==> now.Some? && ancestor(was.value, now.value)
  }

  /** A result name is a target exactly when it was collected for the graph. */
  lemma ResultTargets(collected: seq<Head>, listed: seq<Head>, nodes: set<string>, name: Ref)
    requires name.ResultRef? && name.node in nodes
    ensures name in Targets(collected, listed, nodes) <==> exists g :: g in collected && g.name == name
  {
    var scoped := Scoped(collected, nodes);
    var attempts := Select(listed, (h: Head) =>
      h.name.AttemptRef? && exists s :: s in scoped && s.name.ResultRef? && s.name.jobId == h.name.jobId);
    assert Targets(collected, listed, nodes) == Names(scoped) + Names(attempts);
    assert name !in Names(attempts);
    if g :| g in collected && g.name == name {
      assert g in scoped;
    }
  }

  /** Another process put a commit under a collected name that no result the search saw has. */
  predicate MovedIn(h: Head, collected: seq<Head>, searched: seq<Head>, nodes: set<string>, empty: Sha -> bool) {
    && IsResult(h, nodes, empty)
    && (exists g :: g in collected && g.name == h.name)
    && (forall g :: g in searched && IsResult(g, nodes, empty) ==> g.sha != h.sha)
  }

  lemma CleanupKeepsBranch(collected: seq<Head>, searched: seq<Head>, reviewed: seq<Head>, listed: seq<Head>,
                           met: seq<Head>, project: string, nodes: set<string>, accepted: bool,
                           ancestor: (Sha, Sha) -> bool, empty: Sha -> bool)
    requires DistinctNames(met) && Ancestry(ancestor)
    requires MovesForward(reviewed, met, ReviewRef(project), ancestor)
    requires
      CleanupSeen(collected, searched, reviewed, listed, project, nodes, true, accepted, ancestor, empty).Success?
    ensures var after := Without(met, Targets(collected, listed, nodes));
      && Lookup(met, ReviewRef(project)).Some?
      && Lookup(after, ReviewRef(project)) == Lookup(met, ReviewRef(project))
      && (forall h :: h in searched && IsResult(h, nodes, empty) ==>
            ancestor(h.sha, Lookup(met, ReviewRef(project)).value))
  {
    TargetsAreTransport(collected, listed, nodes);
    hide Targets, Lookup, FindDeliveryCommit;
    FoundIffGreatest(searched, nodes, ancestor, empty);
    var sha := FindDeliveryCommit(searched, nodes, ancestor, empty).value;
    assert IsGreatest(sha, searched, nodes, ancestor, empty);
    var review := ReviewRef(project);
    var seen, landed := Lookup(reviewed, review).value, Lookup(met, review).value;
    var after := Without(met, Targets(collected, listed, nodes));
    assert Head(review, landed) in after;
    UniqueName(met, Head(review, landed), Head(review, Lookup(after, review).value));
    assert ancestor(sha, seen) && ancestor(seen, landed);
  }

  /** Once the results that were seen are contained, only commits moved in later matter. */
  lemma OnlyMovedMatter(collected: seq<Head>, searched: seq<Head>, listed: seq<Head>, met: seq<Head>,
                        nodes: set<string>, branch: Sha, ancestor: (Sha, Sha) -> bool, empty: Sha -> bool)
    requires forall h :: h in searched && IsResult(h, nodes, empty) ==> ancestor(h.sha, branch)
    ensures var after := Without(met, Targets(collected, listed, nodes));
      (forall h :: h in met && h !in after && IsResult(h, nodes, empty) ==> ancestor(h.sha, branch))
      <==> (forall h :: h in met && MovedIn(h, collected, searched, nodes, empty) ==> ancestor(h.sha, branch))
  {
    var targets := Targets(collected, listed, nodes);
    var after := Without(met, targets);
    forall h | h in met && IsResult(h, nodes, empty)
      ensures h !in after <==> exists g :: g in collected && g.name == h.name
    {
      ResultTargets(collected, listed, nodes, h.name);
      hide Targets;
    }
    hide Without, IsResult, Targets;
  }

  /** Whatever others do to the remote during a cleanup, as long as the review branch only moves forward: the branch
      survives as it was met, and it contains every non-empty result the search had seen. No result is lost exactly
      when the branch, as met, contains every commit that was moved in under a collected name. */
  lemma CleanupUnderInterference(collected: seq<Head>, searched: seq<Head>, reviewed: seq<Head>, listed: seq<Head>,
                                 met: seq<Head>, project: string, nodes: set<string>, accepted: bool,
                                 ancestor: (Sha, Sha) -> bool, empty: Sha -> bool)
    requires DistinctNames(met) && Ancestry(ancestor)
    requires MovesForward(reviewed, met, ReviewRef(project), ancestor)
    requires
      CleanupSeen(collected, searched, reviewed, listed, project, nodes, true, accepted, ancestor, empty).Success?
    ensures var targets :=
        CleanupSeen(collected, searched, reviewed, listed, project, nodes, true, accepted, ancestor, empty).value;
      var after := Without(met, targets);
      && (forall h :: h in after <==> h in met && h.name !in targets)
      && Lookup(met, ReviewRef(project)).Some?
      && Lookup(after, ReviewRef(project)) == Lookup(met, ReviewRef(project))
      && (forall h :: h in searched && IsResult(h, nodes, empty) ==>
            ancestor(h.sha, Lookup(met, ReviewRef(project)).value))
      && ((forall h :: h in met && h !in after && IsResult(h, nodes, empty) ==>
             ancestor(h.sha, Lookup(after, ReviewRef(project)).value))
          <==> (forall h :: h in met && MovedIn(h, collected, searched, nodes, empty) ==>
                  ancestor(h.sha, Lookup(met, ReviewRef(project)).value)))
  {
    CleanupKeepsBranch(collected, searched, reviewed, listed, met, project, nodes, accepted, ancestor, empty);
    hide Targets, Lookup, FindDeliveryCommit, RequireDelivered, IsResult, MovedIn, Ancestry;
    var branch := Lookup(met, ReviewRef(project)).value;
    OnlyMovedMatter(collected, searched, listed, met, nodes, branch, ancestor, empty);
  }

  /** Where a result is lost: its head moves to an unrelated commit after the search and is then deleted. */
  lemma MovedResultIsLost()
    ensures var result, review := ResultRef("j", "n", 1, "0"), ReviewRef("p");
      var same := (a: Sha, b: Sha) => a == b;
      var never := (sha: Sha) => false;
      var seen := [Head(result, "old"), Head(review, "old")];
      var met := [Head(result, "new"), Head(review, "old")];
      && Ancestry(same) && MovesForward(seen, met, review, same)
      && var r := CleanupSeen(seen, seen, seen, seen, "p", {"n"}, true, true, same, never);
      && r.Success? && met[0] !in Without(met, r.value) && IsResult(met[0], {"n"}, never)
      && Lookup(Without(met, r.value), review) == Some("old") && !same("new", "old")
  {
    var result, review := ResultRef("j", "n", 1, "0"), ReviewRef("p");
    var same := (a: Sha, b: Sha) => a == b;
    var never := (sha: Sha) => false;
    var seen := [Head(result, "old"), Head(review, "old")];
    var met := [Head(result, "new"), Head(review, "old")];
    assert met[0] in met && met[1] in met;
    LookupIs(seen, seen[1]);
    LookupIs(met, met[1]);
    UnmovedIsCleaned(seen, same, never);
    var r := CleanupAnswer(seen, "p", {"n"}, true, true, same, never);
    hide CleanupSeen, FindDeliveryCommit, Targets, Lookup;
    CleanupUnderInterference(seen, seen, seen, seen, met, "p", {"n"}, true, same, never);
    LookupIs(Without(met, r.value), met[1]);
  }

  lemma UnmovedIsCleaned(seen: seq<Head>, same: (Sha, Sha) -> bool, never: Sha -> bool)
    requires seen == [Head(ResultRef("j", "n", 1, "0"), "old"), Head(ReviewRef("p"), "old")]
    requires Ancestry(same) && !never("old")
    ensures var r := CleanupAnswer(seen, "p", {"n"}, true, true, same, never);
      r.Success? && ResultRef("j", "n", 1, "0") in r.value
  {
    assert seen[0] in seen && seen[1] in seen;
    LookupIs(seen, seen[1]);
    assert IsResult(seen[0], {"n"}, never);
    assert IsGreatest("old", seen, {"n"}, same, never);
    hide FindDeliveryCommit, Targets, Lookup;
    CleanupAllowedIff(seen, "p", {"n"}, true, true, same, never);
    TargetsTell(seen, {"n"});
    assert IsTarget(seen[0], seen, {"n"});
  }

  lemma LookupIs(heads: seq<Head>, h: Head)
    requires h in heads && forall g :: g in heads && g.name == h.name ==> g == h
    ensures Lookup(heads, h.name) == Some(h.sha)
  {
    var found := Lookup(heads, h.name);
    assert found.Some?;
    assert Head(h.name, found.value) in heads;
  }

  lemma SomeTarget(heads: seq<Head>, nodes: set<string>, h: Head)
    requires h in heads && h.name.ResultRef? && h.name.node in nodes
    ensures Targets(heads, heads, nodes) != []
  {
    assert h in Scoped(heads, nodes);
    assert h.name in Names(Scoped(heads, nodes));
  }

  /** A cleanup that nobody disturbs removes exactly the graph's result heads and the attempt heads of their jobs. The
      review branch stays, and it contains every non-empty result whose head is gone. */
  lemma CleanupLosesNothing(heads: seq<Head>, project: string, nodes: set<string>, accepted: bool,
                            ancestor: (Sha, Sha) -> bool, empty: Sha -> bool)
    requires DistinctNames(heads) && Ancestry(ancestor)
    requires CleanupAnswer(heads, project, nodes, true, accepted, ancestor, empty).Success?
    ensures var after := Without(heads, CleanupAnswer(heads, project, nodes, true, accepted, ancestor, empty).value);
      && (forall h :: h in after <==> h in heads && !IsTarget(h, heads, nodes))
      && Lookup(after, ReviewRef(project)).Some?
      && Lookup(after, ReviewRef(project)) == Lookup(heads, ReviewRef(project))
      && (forall h :: h in heads && h !in after && IsResult(h, nodes, empty) ==>
            ancestor(h.sha, Lookup(after, ReviewRef(project)).value))
  {
    TargetsTell(heads, nodes);
    CleanupUnderInterference(heads, heads, heads, heads, heads, project, nodes, accepted, ancestor, empty);
    hide Targets, Lookup, FindDeliveryCommit, IsTarget, IsResult;
  }

  lemma DeliveredTells(heads: seq<Head>, project: string, sha: Sha, ancestor: (Sha, Sha) -> bool)
    requires DistinctNames(heads) && Ancestry(ancestor)
    ensures var refusal := RequireDelivered(heads, project, sha, ancestor);
      && (refusal == Some(NotPublished) <==> forall h :: h in heads ==> h.name != ReviewRef(project))
      && (refusal == Some(NotDelivered) <==>
            exists h :: h in heads && h.name == ReviewRef(project) && !ancestor(sha, h.sha))
      && refusal in {None, Some(NotPublished), Some(NotDelivered)}
  {
    var landed := Lookup(heads, ReviewRef(project));
    if landed.Some? {
      forall h | h in heads && h.name == ReviewRef(project) ensures h.sha == landed.value {
        UniqueName(heads, h, Head(ReviewRef(project), landed.value));
      }
    }
    hide Lookup;
  }

  /** Which reason a refused cleanup gives, from what its reads saw: no commit found in the search, no review branch, a
      branch without that commit, or a deletion that the remote did not take, in this order. */
  lemma RefusalTells(collected: seq<Head>, searched: seq<Head>, reviewed: seq<Head>, listed: seq<Head>,
                     project: string, nodes: set<string>, delete: bool, accepted: bool,
                     ancestor: (Sha, Sha) -> bool, empty: Sha -> bool)
    requires DistinctNames(reviewed) && Ancestry(ancestor)
    ensures var r := CleanupSeen(collected, searched, reviewed, listed, project, nodes, delete, accepted, ancestor,
                                 empty);
      var unpublished := forall h :: h in reviewed ==> h.name != ReviewRef(project);
      && (forall sha :: IsGreatest(sha, searched, nodes, ancestor, empty) ==>
            var undelivered := exists h :: h in reviewed && h.name == ReviewRef(project) && !ancestor(sha, h.sha);
            && (r == Failure(NotPublished) <==> unpublished)
            && (r == Failure(NotDelivered) <==> undelivered)
            && (r == Failure(PushFailed) <==>
                  !unpublished && !undelivered && delete && !accepted
                  && exists name :: name in Targets(collected, listed, nodes))
            && (r.Failure? ==> r.error in {NotPublished, NotDelivered, PushFailed})
            && (r.Success? ==> r.value == Targets(collected, listed, nodes)))
      && ((forall sha :: !IsGreatest(sha, searched, nodes, ancestor, empty)) ==>
            r.Failure? && Failure(r.error) == FindDeliveryCommit(searched, nodes, ancestor, empty))
  {
    FoundIffGreatest(searched, nodes, ancestor, empty);
    var found := FindDeliveryCommit(searched, nodes, ancestor, empty);
    var targets := Targets(collected, listed, nodes);
    assert targets != [] <==> exists name :: name in targets by {
      assert targets != [] ==> targets[0] in targets;
    }
    if found.Success? {
      DeliveredTells(reviewed, project, found.value, ancestor);
      assert IsGreatest(found.value, searched, nodes, ancestor, empty);
    }
    hide FindDeliveryCommit, Targets, RequireDelivered, IsGreatest;
    assert forall sha :: IsGreatest(sha, searched, nodes, ancestor, empty) ==> found == Success(sha);
  }

  /** A refused cleanup names its reason: the results have no greatest commit, the review branch is missing, it
      does not contain that commit, or the remote would not delete. */
  lemma CleanupAllowedIff(heads: seq<Head>, project: string, nodes: set<string>, delete: bool, accepted: bool,
                          ancestor: (Sha, Sha) -> bool, empty: Sha -> bool)
    requires Ancestry(ancestor)
    ensures CleanupAnswer(heads, project, nodes, delete, accepted, ancestor, empty).Success? <==>
      && (exists sha :: IsGreatest(sha, heads, nodes, ancestor, empty))
      && Lookup(heads, ReviewRef(project)).Some?
      && (forall h :: h in heads && IsResult(h, nodes, empty) ==>
            ancestor(h.sha, Lookup(heads, ReviewRef(project)).value))
      && (delete ==> accepted)
  {
    hide Lookup, FindDeliveryCommit, Targets;
    FoundIffGreatest(heads, nodes, ancestor, empty);
    var found := FindDeliveryCommit(heads, nodes, ancestor, empty);
    if found.Success? {
      var sha := found.value;
      assert IsGreatest(sha, heads, nodes, ancestor, empty);
      var g :| g in heads && IsResult(g, nodes, empty) && g.sha == sha;
      SomeTarget(heads, nodes, g);
    }
  }

  /** Publishing makes the cleanup possible: right after it, cleanup finds the same commit and is not refused,
      and the branch has only moved forward. */
  lemma PublishThenCleanup(heads: seq<Head>, project: string, nodes: set<string>, delete: bool,
                           ancestor: (Sha, Sha) -> bool, empty: Sha -> bool)
    requires DistinctNames(heads) && Ancestry(ancestor)
    requires var found := FindDeliveryCommit(heads, nodes, ancestor, empty);
      found.Success? && forall h :: h in heads && h.name == ReviewRef(project) ==> ancestor(h.sha, found.value)
    ensures var sha := FindDeliveryCommit(heads, nodes, ancestor, empty).value;
      var after := Pushed(heads, ReviewRef(project), sha);
      && FindDeliveryCommit(after, nodes, ancestor, empty) == Success(sha)
      && CleanupAnswer(after, project, nodes, delete, true, ancestor, empty).Success?
      && Head(ReviewRef(project), sha) in after
      && forall h :: h in heads && h.name == ReviewRef(project) ==> ancestor(h.sha, sha)
  {
    var review := ReviewRef(project);
    var sha := FindDeliveryCommit(heads, nodes, ancestor, empty).value;
    var after := Pushed(heads, review, sha);
    PushedTells(heads, review, sha);
    hide Pushed, FindDeliveryCommit, RequireDelivered, CleanupAnswer;
    FoundIffGreatest(heads, nodes, ancestor, empty);
    FoundIffGreatest(after, nodes, ancestor, empty);
    assert IsGreatest(sha, heads, nodes, ancestor, empty);
    var g :| g in heads && IsResult(g, nodes, empty) && g.sha == sha;
    assert g in after;
    assert IsGreatest(sha, after, nodes, ancestor, empty);
    CleanupAllowedIff(after, project, nodes, delete, true, ancestor, empty);
  }

  /** After a cleanup there is nothing left to deliver: publishing and cleaning up again are refused. */
  lemma CleanupOnce(heads: seq<Head>, project: string, nodes: set<string>, accepted: bool, delete: bool, again: bool,
                    ancestor: (Sha, Sha) -> bool, empty: Sha -> bool)
    requires DistinctNames(heads) && Ancestry(ancestor)
    requires CleanupAnswer(heads, project, nodes, true, accepted, ancestor, empty).Success?
    ensures var after := Without(heads, CleanupAnswer(heads, project, nodes, true, accepted, ancestor, empty).value);
      && FindDeliveryCommit(after, nodes, ancestor, empty) == Failure(NoResults)
      && CleanupAnswer(after, project, nodes, delete, again, ancestor, empty) == Failure(NoResults)
  {
    CleanupLosesNothing(heads, project, nodes, accepted, ancestor, empty);
    var after := Without(heads, CleanupAnswer(heads, project, nodes, true, accepted, ancestor, empty).value);
    hide FindDeliveryCommit, Without;
    FoundIffGreatest(after, nodes, ancestor, empty);
  }
}
