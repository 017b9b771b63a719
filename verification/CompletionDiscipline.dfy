/** Completion identity of executor sessions (scripts/runtime/heartbeat/completion_discipline.py): the
    first submission of a completion id wins, replays are answered from it, conflicts are quarantined.

    The two tables are maps from row id to row; a job row carries its queue record's state. Quarantine
    reasons keep the values they report instead of the rendered sentence. */
module CompletionDiscipline {
  import opened Wrappers
  import opened Text

  datatype Reason = Reason(completionId: string, holder: string, holderDigest: string,
                           holderSha: Option<string>, holderManifest: Option<string>,
                           incoming: string, incomingDigest: string,
                           incomingSha: Option<string>, incomingManifest: Option<string>)

  datatype SessionError = Plain(text: string) | Conflict(reason: Reason)

  datatype Session = Session(jobId: string, state: string, completionId: Option<string>, digest: Option<string>,
                             resultSha: Option<string>, manifest: Option<string>, quarantine: Option<Reason>,
                             error: Option<SessionError>, updatedAt: int)

  datatype Job = Job(status: string, queueState: string, queue: string)

  datatype Tables = Tables(sessions: map<string, Session>, jobs: map<string, Job>)

  datatype Call = Call(session: string, completionId: Option<string>, digest: Option<string>,
                       resultSha: Option<string>, manifest: Option<string>, now: int)

  datatype SubmitError = EmptyCompletionId | DigestInvalid | SessionNotFound | StoredDigestInvalid

  datatype Answer =
    | Raised(error: SubmitError)
    | Proceed
    | Stored(session: string, resultSha: Option<string>, manifest: Option<string>)
    | Duplicate(session: string, resultSha: Option<string>, manifest: Option<string>, quarantine: Option<Reason>)
    | Quarantined(session: string, resultSha: Option<string>, manifest: Option<string>, reason: Reason,
                  sessions: set<string>)

  function Coalesce(a: Option<string>, b: Option<string>): Option<string> {
    if a.Some? then a else b
  }

  // ---------------------------------------------------------------- digests

  predicate IsLowerHex(c: char) {
    '0' <= c <= '9' || 'a' <= c <= 'f'
  }

  predicate IsDigest(s: string) {
    |s| == 64 && forall i :: 0 <= i < |s| ==> IsLowerHex(s[i])
  }

  /** _normalize_digest, None where it raises. */
  function NormalizeDigest(value: Option<string>): (digest: Option<string>)
    ensures digest.Some? ==> IsDigest(digest.value)
  {
    if value.None? then None
    else
      var normalized := Lower(Strip(value.value));
      if IsDigest(normalized) then Some(normalized) else None
  }

  /** A normalized digest is its own normal form. */
  lemma NormalizeTwice(digest: string)
    requires IsDigest(digest)
    ensures NormalizeDigest(Some(digest)) == Some(digest)
  {
    assert !IsSpace(digest[0]) && !IsSpace(digest[|digest| - 1]);
    assert Strip(digest) == digest;
    assert Lower(digest) == digest;
  }

  /** The text is 64 hexadecimal digits, of either case, between white space; `digest` is those digits in lower case. */
  ghost predicate Spells(value: string, digest: string) {
    exists i: nat :: SpelledAt(value, i, digest)
  }

  ghost predicate SpelledAt(value: string, i: nat, digest: string) {
    && |digest| == 64 && i + 64 <= |value|
    && (forall k :: 0 <= k < i || i + 64 <= k < |value| ==> White(value[k]))
    && forall k :: 0 <= k < 64 ==> SameHexDigit(value[i..][k], digest[k])
  }

  ghost predicate SameHexDigit(c: char, d: char) {
    exists n :: 0 <= n < 16 && d == "0123456789abcdef"[n] && c in {"0123456789abcdef"[n], "0123456789ABCDEF"[n]}
  }

  /** A digest is accepted exactly when it spells 64 hexadecimal digits, and those are what is stored. */
  lemma NormalizeTells(value: Option<string>, digest: string)
    ensures NormalizeDigest(value) == Some(digest) <==> value.Some? && Spells(value.value, digest)
  {
    if value.Some? {
      if Spells(value.value, digest) {
        SpellingIsNormalized(value.value, digest);
      } else {
        NormalizedIsSpelled(value.value);
      }
    }
  }

  lemma HexDigits()
    ensures forall c, d :: SameHexDigit(c, d) ==> LowerChar(c) == d && IsLowerHex(d) && !White(c)
    ensures forall c :: IsLowerHex(LowerChar(c)) ==> SameHexDigit(c, LowerChar(c))
  {
    var small, large := "0123456789abcdef", "0123456789ABCDEF";
    assert forall n :: 0 <= n < 10 ==> small[n] as int == large[n] as int == 48 + n;
    assert forall n :: 10 <= n < 16 ==> small[n] as int == 87 + n && large[n] as int == 55 + n;
    forall c | IsLowerHex(LowerChar(c)) ensures SameHexDigit(c, LowerChar(c)) {
      var d := LowerChar(c) as int;
      var n := if d < 58 then d - 48 else d - 87;
      assert 0 <= n < 16 && LowerChar(c) == small[n] && c in {small[n], large[n]};
    }
  }

  lemma SpellingIsNormalized(value: string, digest: string)
    requires Spells(value, digest)
    ensures NormalizeDigest(Some(value)) == Some(digest)
  {
    HexDigits();
    hide SameHexDigit, LowerChar, IsLowerHex, White, Strip;
    var i: nat :| SpelledAt(value, i, digest);
    var a, b := StripTells(value);
    assert SameHexDigit(value[i..][0], digest[0]) && SameHexDigit(value[i..][63], digest[63]);
    assert value[i..][0] == value[i] && value[i..][63] == value[i + 63];
    assert a == i && b == i + 64;
    assert forall k :: 0 <= k < 64 ==> value[i..][k] == value[i..i + 64][k];
    assert Lower(value[i..i + 64]) == digest;
  }

  lemma NormalizedIsSpelled(value: string)
    ensures NormalizeDigest(Some(value)).Some? ==> Spells(value, NormalizeDigest(Some(value)).value)
  {
    if NormalizeDigest(Some(value)).Some? {
      var i, j := StripTells(value);
      var digest := NormalizeDigest(Some(value)).value;
      assert digest == Lower(value[i..j]) && IsDigest(digest);
      hide NormalizeDigest;
      HexDigits();
      hide SameHexDigit, LowerChar, IsLowerHex, White, Strip;
      assert j == i + 64;
      forall k | 0 <= k < 64 ensures SameHexDigit(value[i..][k], digest[k]) {
        assert digest[k] == LowerChar(value[i..j][k]) && value[i..j][k] == value[i..][k];
      }
      assert SpelledAt(value, i, digest);
    }
  }

  // ---------------------------------------------------------------- one call

  ghost predicate Holds(sessions: map<string, Session>, id: string, s: string) {
    s in sessions && sessions[s].completionId == Some(id)
  }

  /** The unique index on completion_id. */
  ghost predicate UniqueIds(sessions: map<string, Session>) {
    forall s, t :: s in sessions && t in sessions && sessions[s].completionId.Some? && s != t ==>
      sessions[s].completionId != sessions[t].completionId
  }

  ghost function Holder(sessions: map<string, Session>, id: string): (holder: Option<string>)
    ensures holder.Some? ==> Holds(sessions, id, holder.value)
    ensures holder.None? ==> forall s :: !Holds(sessions, id, s)
  {
    if exists s :: Holds(sessions, id, s) then
      var s :| Holds(sessions, id, s);
      Some(s)
    else None
  }

  /** mark_jobs_awaiting_review */
  function AwaitReview(jobs: map<string, Job>, ids: set<string>): map<string, Job> {
    map j | j in jobs :: if j in ids then Job("awaiting_review", "awaiting_review", "awaiting_review") else jobs[j]
  }

  function Bind(row: Session, id: string, digest: string, call: Call): Session {
    row.(completionId := Some(id), digest := Some(digest),
         resultSha := Coalesce(call.resultSha, row.resultSha),
         manifest := Coalesce(call.manifest, row.manifest), updatedAt := call.now)
  }

  function CopyHolder(row: Session, holder: Session, digest: string, call: Call): Session {
    row.(state := "completion_duplicate", digest := Some(digest), resultSha := holder.resultSha,
         manifest := holder.manifest, updatedAt := call.now)
  }

  function QuarantineHolder(row: Session, reason: Reason, call: Call): Session {
    row.(state := "completion_quarantined", quarantine := Some(reason), error := Some(Conflict(reason)),
         updatedAt := call.now)
  }

  function QuarantineIncoming(row: Session, reason: Reason, digest: string, call: Call): Session {
    row.(state := "completion_quarantined", digest := Some(digest), quarantine := Some(reason),
         resultSha := Coalesce(call.resultSha, row.resultSha), manifest := Coalesce(call.manifest, row.manifest),
         error := Some(Conflict(reason)), updatedAt := call.now)
  }

  function ConflictReason(id: string, holder: string, row: Session, holderDigest: string, digest: string,
                          call: Call): Reason {
    Reason(id, holder, holderDigest, row.resultSha, row.manifest, call.session, digest, call.resultSha, call.manifest)
  }

  /** The comparison, once the id and digest are normalized and both rows are known. */
  function Compare(t: Tables, call: Call, id: string, digest: string, holder: Option<string>): (Tables, Answer)
    requires call.session in t.sessions && (holder.Some? ==> holder.value in t.sessions)
  {
    var row := t.sessions[call.session];
    if holder.None? then
      (t.(sessions := t.sessions[call.session := Bind(row, id, digest, call)]),
       Stored(call.session, call.resultSha, call.manifest))
    else
      var h := holder.value;
      var held := t.sessions[h];
      var holderDigest := NormalizeDigest(held.digest);
      if holderDigest.None? then (t, Raised(StoredDigestInvalid))
      else if holderDigest.value == digest then
        (if h == call.session then t
         else t.(sessions := t.sessions[call.session := CopyHolder(row, held, digest, call)]),
         Duplicate(h, held.resultSha, held.manifest, held.quarantine))
      else
        var reason := ConflictReason(id, h, held, holderDigest.value, digest, call);
        var quarantined := t.sessions[h := QuarantineHolder(held, reason, call)];
        (Tables(if h == call.session then quarantined
                else quarantined[call.session := QuarantineIncoming(row, reason, digest, call)],
                AwaitReview(t.jobs, {held.jobId, row.jobId})),
         Quarantined(h, held.resultSha, held.manifest, reason, {h, call.session}))
  }

  /** submit_completion: the tables after the call and its answer. A raised call writes nothing. */
  ghost function Submit(t: Tables, call: Call): (Tables, Answer) {
    if call.completionId.None? then (t, Proceed)
    else
      var id := Strip(call.completionId.value);
      var digest := NormalizeDigest(call.digest);
      if id == "" then (t, Raised(EmptyCompletionId))
      else if digest.None? then (t, Raised(DigestInvalid))
      else if call.session !in t.sessions then (t, Raised(SessionNotFound))
      else Compare(t, call, id, digest.value, Holder(t.sessions, id))
  }

  /** The tables in place, as the transaction updates them. */
  class CompletionStore {
    var sessions: map<string, Session>
    var jobs: map<string, Job>

    function Rows(): Tables
      reads this
    {
      Tables(sessions, jobs)
    }

    constructor (sessions: map<string, Session>, jobs: map<string, Job>)
      ensures Rows() == Tables(sessions, jobs)
    {
      this.sessions, this.jobs := sessions, jobs;
    }

    method SubmitCompletion(call: Call) returns (answer: Answer)
      requires UniqueIds(sessions)
      modifies this
      ensures (Rows(), answer) == Submit(old(Rows()), call)
    {
      hide NormalizeDigest, Strip;
      if call.completionId.None? {
        return Proceed;
      }
      var id := Strip(call.completionId.value);
      if id == "" {
        return Raised(EmptyCompletionId);
      }
      var digest := NormalizeDigest(call.digest);
      if digest.None? {
        return Raised(DigestInvalid);
      }
      if call.session !in sessions {
        return Raised(SessionNotFound);
      }
      var row := sessions[call.session];
      if !(exists s :: s in sessions && sessions[s].completionId == Some(id)) {
        sessions := sessions[call.session := Bind(row, id, digest.value, call)];
        return Stored(call.session, call.resultSha, call.manifest);
      }
      var h :| h in sessions && sessions[h].completionId == Some(id);
      assert Holder(sessions, id) == Some(h) by {
        assert Holds(sessions, id, h);
      }
      var held := sessions[h];
      var holderDigest := NormalizeDigest(held.digest);
      if holderDigest.None? {
        return Raised(StoredDigestInvalid);
      }
      if holderDigest.value == digest.value {
        if h != call.session {
          sessions := sessions[call.session := CopyHolder(row, held, digest.value, call)];
        }
        return Duplicate(h, held.resultSha, held.manifest, held.quarantine);
      }
      var reason := ConflictReason(id, h, held, holderDigest.value, digest.value, call);
      sessions := sessions[h := QuarantineHolder(held, reason, call)];
      if h != call.session {
        sessions := sessions[call.session := QuarantineIncoming(row, reason, digest.value, call)];
      }
      jobs := AwaitReview(jobs, {held.jobId, row.jobId});
      return Quarantined(h, held.resultSha, held.manifest, reason, {h, call.session});
    }
  }

  // ---------------------------------------------------------------- what every call keeps

  /** Bound rows carry a normalized digest, and every session's job exists. */
  ghost predicate WellFormed(t: Tables) {
    && UniqueIds(t.sessions)
    && (forall s :: s in t.sessions && t.sessions[s].completionId.Some? ==>
          t.sessions[s].digest.Some? && IsDigest(t.sessions[s].digest.value))
    && forall s :: s in t.sessions ==> t.sessions[s].jobId in t.jobs
  }

  /** The caller submits for a session that is unbound, or bound to the very id it submits. */
  predicate Disciplined(t: Tables, call: Call) {
    call.completionId.Some? && call.session in t.sessions ==>
      t.sessions[call.session].completionId in {None, Some(Strip(call.completionId.value))}
  }

  /** The identity a holder recorded first. */
  ghost predicate SameIdentity(before: Session, after: Session) {
    && after.completionId == before.completionId && after.digest == before.digest
    && after.resultSha == before.resultSha && after.manifest == before.manifest
    && (before.quarantine.Some? ==> after.quarantine.Some?)
  }

  ghost predicate KeepsHolders(t: Tables, u: Tables) {
    && t.sessions.Keys == u.sessions.Keys
    && forall s :: s in t.sessions && t.sessions[s].completionId.Some? ==> SameIdentity(t.sessions[s], u.sessions[s])
  }

  lemma HolderOf(t: Tables, id: string, s: string)
    requires UniqueIds(t.sessions) && Holds(t.sessions, id, s)
    ensures Holder(t.sessions, id) == Some(s)
  {
  }

  lemma BindKeepsTables(t: Tables, call: Call, id: string, digest: string)
    requires WellFormed(t) && call.session in t.sessions && IsDigest(digest)
    requires forall s :: !Holds(t.sessions, id, s)
    ensures WellFormed(t.(sessions := t.sessions[call.session := Bind(t.sessions[call.session], id, digest, call)]))
  {
    hide IsDigest;
    var u := t.sessions[call.session := Bind(t.sessions[call.session], id, digest, call)];
    forall s | s in t.sessions ensures t.sessions[s].completionId != Some(id) {
      assert !Holds(t.sessions, id, s);
    }
    assert UniqueIds(u);
  }

  /** Rewriting unbound or bound rows without touching id, digest of bound rows, or job. */
  lemma RewriteKeepsTables(t: Tables, u: Tables)
    requires WellFormed(t) && u.sessions.Keys == t.sessions.Keys && t.jobs.Keys == u.jobs.Keys
    requires forall s :: s in t.sessions ==>
      && u.sessions[s].completionId == t.sessions[s].completionId && u.sessions[s].jobId == t.sessions[s].jobId
      && (u.sessions[s].digest == t.sessions[s].digest
          || (u.sessions[s].digest.Some? && IsDigest(u.sessions[s].digest.value)))
    ensures WellFormed(u)
  {
    hide IsDigest;
  }

  /** Bound ids stay unique, digests normalized and jobs present, whatever is submitted. */
  lemma CallKeepsTables(t: Tables, call: Call)
    requires WellFormed(t)
    ensures WellFormed(Submit(t, call).0)
    ensures Submit(t, call).1 != Raised(StoredDigestInvalid)
  {
    hide NormalizeDigest, Strip, IsDigest, WellFormed;
    var u := Submit(t, call).0;
    if u != t {
      var id, digest := Strip(call.completionId.value), NormalizeDigest(call.digest).value;
      var holder := Holder(t.sessions, id);
      if holder.None? {
        BindKeepsTables(t, call, id, digest);
      } else {
        HolderDigest(t, id, holder.value);
        RewriteKeepsTables(t, u);
      }
    } else {
      var holder := if call.completionId.Some? then Holder(t.sessions, Strip(call.completionId.value)) else None;
      if holder.Some? {
        HolderDigest(t, Strip(call.completionId.value), holder.value);
      }
    }
  }

  lemma HolderDigest(t: Tables, id: string, h: string)
    requires WellFormed(t) && Holds(t.sessions, id, h)
    ensures t.sessions[h].digest.Some? && NormalizeDigest(t.sessions[h].digest) == t.sessions[h].digest
  {
    NormalizeTwice(t.sessions[h].digest.value);
  }

  /** The call writes to no row but the session's and the holder's. */
  lemma CallKeepsHolders(t: Tables, call: Call)
    requires WellFormed(t) && Disciplined(t, call)
    ensures KeepsHolders(t, Submit(t, call).0)
  {
    hide NormalizeDigest, Strip, IsDigest;
    if call.completionId.Some? && call.session in t.sessions {
      var id := Strip(call.completionId.value);
      if t.sessions[call.session].completionId == Some(id) {
        HolderOf(t, id, call.session);
      }
    }
  }

  // ---------------------------------------------------------------- what the answers mean

  /** The call gets as far as the comparison. */
  predicate Comparable(t: Tables, call: Call) {
    && call.completionId.Some? && Strip(call.completionId.value) != ""
    && NormalizeDigest(call.digest).Some? && call.session in t.sessions
  }

  /** First write wins: the first submission of an id is stored; a later one is a duplicate exactly when
      its digest normalizes to the stored one, and is quarantined otherwise. */
  lemma AnswerTells(t: Tables, call: Call)
    requires WellFormed(t) && Comparable(t, call)
    ensures var answer := Submit(t, call).1;
      var id, digest := Strip(call.completionId.value), NormalizeDigest(call.digest);
      && (answer.Stored? <==> forall s :: s in t.sessions ==> t.sessions[s].completionId != Some(id))
      && (answer.Duplicate? <==> exists s :: s in t.sessions && t.sessions[s].completionId == Some(id)
                                              && t.sessions[s].digest == digest)
      && (answer.Quarantined? <==> exists s :: s in t.sessions && t.sessions[s].completionId == Some(id)
                                                && t.sessions[s].digest != digest)
      && (answer.Stored? ==> answer == Stored(call.session, call.resultSha, call.manifest))
      && (answer.Duplicate? || answer.Quarantined? ==>
            && answer.session in t.sessions && t.sessions[answer.session].completionId == Some(id)
            && answer.resultSha == t.sessions[answer.session].resultSha
            && answer.manifest == t.sessions[answer.session].manifest)
      && (answer.Duplicate? ==> answer.quarantine == t.sessions[answer.session].quarantine)
  {
    hide NormalizeDigest, Strip, IsDigest, UniqueIds;
    var id := Strip(call.completionId.value);
    var holder := Holder(t.sessions, id);
    if holder.Some? {
      HolderDigest(t, id, holder.value);
      forall s | Holds(t.sessions, id, s) ensures s == holder.value {
        HolderOf(t, id, s);
      }
      assert Holds(t.sessions, id, holder.value);
      assert forall s :: s in t.sessions && t.sessions[s].completionId == Some(id) ==> Holds(t.sessions, id, s);
    } else {
      assert forall s :: s in t.sessions ==> !Holds(t.sessions, id, s);
    }
  }

  /** Every way not to reach the comparison has its own answer, the first that applies. */
  lemma RejectionTells(t: Tables, call: Call)
    requires WellFormed(t)
    ensures var answer := Submit(t, call).1;
      && (answer == Proceed <==> call.completionId == None)
      && (answer == Raised(EmptyCompletionId) <==>
            call.completionId.Some? && Strip(call.completionId.value) == "")
      && (answer == Raised(DigestInvalid) <==>
            call.completionId.Some? && Strip(call.completionId.value) != "" && NormalizeDigest(call.digest) == None)
      && (answer == Raised(SessionNotFound) <==>
            call.completionId.Some? && Strip(call.completionId.value) != "" && NormalizeDigest(call.digest) != None
            && call.session !in t.sessions)
      && (Comparable(t, call) <==> answer.Stored? || answer.Duplicate? || answer.Quarantined?)
  {
    CallKeepsTables(t, call);
    hide NormalizeDigest, Strip, IsDigest, UniqueIds, WellFormed;
  }

  /** A stored submission binds the caller's row to the id and its digest, takes the result and manifest it brings and
      keeps those it does not. Nothing else is written. */
  lemma StoredWrites(t: Tables, call: Call)
    requires WellFormed(t) && Submit(t, call).1.Stored?
    ensures var u := Submit(t, call).0;
      && call.session in t.sessions && u.jobs == t.jobs && u.sessions.Keys == t.sessions.Keys
      && (forall s :: s in t.sessions && s != call.session ==> u.sessions[s] == t.sessions[s])
      && var row := t.sessions[call.session];
      && u.sessions[call.session] ==
           Session(row.jobId, row.state, Some(Strip(call.completionId.value)), NormalizeDigest(call.digest),
                   if call.resultSha.Some? then call.resultSha else row.resultSha,
                   if call.manifest.Some? then call.manifest else row.manifest,
                   row.quarantine, row.error, call.now)
  {
    hide NormalizeDigest, Strip, IsDigest, UniqueIds;
  }

  /** A duplicate from another session turns the caller's row into a copy of what the holder recorded: its state says
      so, its digest, result and manifest are the holder's. It keeps its job, id, quarantine and error; every other
      row and every job stays. */
  lemma DuplicateWrites(t: Tables, call: Call)
    requires WellFormed(t) && Submit(t, call).1.Duplicate? && Submit(t, call).1.session != call.session
    ensures var (u, answer) := Submit(t, call);
      && call.session in t.sessions && answer.session in t.sessions
      && u.jobs == t.jobs && u.sessions.Keys == t.sessions.Keys
      && (forall s :: s in t.sessions && s != call.session ==> u.sessions[s] == t.sessions[s])
      && var row, held := t.sessions[call.session], t.sessions[answer.session];
      && u.sessions[call.session] ==
           Session(row.jobId, "completion_duplicate", row.completionId, held.digest, answer.resultSha, answer.manifest,
                   row.quarantine, row.error, call.now)
      && answer.resultSha == held.resultSha && answer.manifest == held.manifest && held.digest.Some?
  {
    HolderDigest(t, Strip(call.completionId.value), Submit(t, call).1.session);
    hide NormalizeDigest, Strip, IsDigest, UniqueIds;
  }

  /** A call that does not reach the comparison, or only finds a duplicate of itself, writes nothing. */
  lemma SilentCalls(t: Tables, call: Call)
    requires WellFormed(t)
    ensures !Comparable(t, call) ==> Submit(t, call).0 == t
    ensures var answer := Submit(t, call).1;
      answer.Duplicate? && answer.session == call.session ==> Submit(t, call).0 == t
  {
  }

  /** A conflict leaves both rows quarantined with the same reason and both jobs in the review queue,
      and touches no other job. */
  lemma ConflictGoesToReview(t: Tables, call: Call)
    requires WellFormed(t) && Submit(t, call).1.Quarantined?
    ensures var (u, answer) := Submit(t, call);
      && answer.sessions == {answer.session, call.session} && u.jobs.Keys == t.jobs.Keys
      && (forall s :: s in answer.sessions ==>
            && s in u.sessions && u.sessions[s].quarantine == Some(answer.reason)
            && u.sessions[s].state == "completion_quarantined"
            && u.jobs[u.sessions[s].jobId] == Job("awaiting_review", "awaiting_review", "awaiting_review"))
      && (forall s :: s in t.sessions && s !in answer.sessions ==> u.sessions[s] == t.sessions[s])
      && (forall j :: j in t.jobs && (forall s :: s in answer.sessions ==> t.sessions[s].jobId != j) ==>
          u.jobs[j] == t.jobs[j])
  {
    hide NormalizeDigest, Strip, IsDigest, UniqueIds;
    var holder := Submit(t, call).1.session;
    assert holder in {holder, call.session} && call.session in {holder, call.session};
  }

  /** In a conflict the holder keeps everything but state, quarantine and error, and the other row takes the digest,
      result and manifest submitted. The reason sets the holder's values against the submitted ones. */
  lemma ConflictWrites(t: Tables, call: Call)
    requires WellFormed(t) && Submit(t, call).1.Quarantined?
    ensures var (u, answer) := Submit(t, call);
      && call.session in t.sessions && answer.session in t.sessions && u.sessions.Keys == t.sessions.Keys
      && var row, held := t.sessions[call.session], t.sessions[answer.session];
      && held.digest.Some? && NormalizeDigest(call.digest).Some?
      && answer.reason == Reason(Strip(call.completionId.value),
                                 answer.session, held.digest.value, held.resultSha, held.manifest,
                                 call.session, NormalizeDigest(call.digest).value, call.resultSha, call.manifest)
      && u.sessions[answer.session] ==
           Session(held.jobId, "completion_quarantined", held.completionId, held.digest, held.resultSha, held.manifest,
                   Some(answer.reason), Some(Conflict(answer.reason)), call.now)
      && (call.session != answer.session ==>
            u.sessions[call.session] ==
              Session(row.jobId, "completion_quarantined", row.completionId, NormalizeDigest(call.digest),
                      if call.resultSha.Some? then call.resultSha else row.resultSha,
                      if call.manifest.Some? then call.manifest else row.manifest,
                      Some(answer.reason), Some(Conflict(answer.reason)), call.now))
  {
    HolderDigest(t, Strip(call.completionId.value), Submit(t, call).1.session);
    hide NormalizeDigest, Strip, IsDigest, UniqueIds, AwaitReview;
  }

  // ---------------------------------------------------------------- replays

  function Untimed(row: Session): Session {
    row.(updatedAt := 0)
  }

  /** Equal tables, but for when rows were last written. */
  ghost predicate SameButTimes(t: Tables, u: Tables) {
    && t.jobs == u.jobs && t.sessions.Keys == u.sessions.Keys
    && forall s :: s in t.sessions ==> Untimed(t.sessions[s]) == Untimed(u.sessions[s])
  }

  lemma ReviewTwice(jobs: map<string, Job>, ids: set<string>)
    ensures AwaitReview(AwaitReview(jobs, ids), ids) == AwaitReview(jobs, ids)
  {
  }

  /** The holder of the submitted id is the same after a call that found one. */
  lemma HolderStays(t: Tables, call: Call, id: string, h: string)
    requires WellFormed(t) && Disciplined(t, call) && call.completionId.Some? && id == Strip(call.completionId.value)
    requires Holds(t.sessions, id, h)
    ensures Holder(Submit(t, call).0.sessions, id) == Some(h)
    ensures SameIdentity(t.sessions[h], Submit(t, call).0.sessions[h])
  {
    hide NormalizeDigest, Strip, IsDigest, UniqueIds, SameIdentity, Submit;
    CallKeepsHolders(t, call);
    CallKeepsTables(t, call);
    SameIdentityId(t.sessions[h], Submit(t, call).0.sessions[h]);
    HolderOf(Submit(t, call).0, id, h);
  }

  lemma SameIdentityId(a: Session, b: Session)
    requires SameIdentity(a, b)
    ensures a.completionId == b.completionId
  {
  }

  /** Repeating a call right after itself changes nothing but timestamps; the answer is the same, except that a
      stored submission is now a duplicate of itself. */
  lemma ReplayChangesNothing(t: Tables, call: Call, later: int)
    requires WellFormed(t) && Disciplined(t, call)
    ensures var (u, first) := Submit(t, call);
      var (v, second) := Submit(u, call.(now := later));
      && SameButTimes(u, v)
      && (first.Stored? ==> second.Duplicate? && second.session == call.session && v == u)
      && (!first.Stored? ==> second == first)
  {
    hide NormalizeDigest, Strip, IsDigest, WellFormed;
    var u := Submit(t, call).0;
    if Submit(t, call).1.Stored? {
      var id := Strip(call.completionId.value);
      CallKeepsTables(t, call);
      assert Holds(u.sessions, id, call.session);
      Unique(u);
      HolderOf(u, id, call.session);
      HolderDigest(u, id, call.session);
    } else if Submit(t, call).1.Duplicate? || Submit(t, call).1.Quarantined? {
      var id := Strip(call.completionId.value);
      var h := Holder(t.sessions, id).value;
      HolderStays(t, call, id, h);
      ReplayOfKnown(t, call, id, h, later);
    }
  }

  lemma Unique(t: Tables)
    requires WellFormed(t)
    ensures UniqueIds(t.sessions)
  {
  }

  lemma ReplayOfDuplicate(t: Tables, call: Call, id: string, digest: string, h: string, later: int)
    requires call.session in t.sessions && h in t.sessions
    requires NormalizeDigest(t.sessions[h].digest) == Some(digest)
    ensures var (u, first) := Compare(t, call, id, digest, Some(h));
      && call.session in u.sessions && h in u.sessions
      && var (v, second) := Compare(u, call.(now := later), id, digest, Some(h));
         SameButTimes(u, v) && second == first
  {
    hide NormalizeDigest;
  }

  lemma ReplayOfConflict(t: Tables, call: Call, id: string, digest: string, h: string, later: int)
    requires call.session in t.sessions && h in t.sessions && t.sessions[h].digest.Some?
    requires NormalizeDigest(t.sessions[h].digest) == t.sessions[h].digest != Some(digest)
    ensures var (u, first) := Compare(t, call, id, digest, Some(h));
      && call.session in u.sessions && h in u.sessions
      && var (v, second) := Compare(u, call.(now := later), id, digest, Some(h));
         SameButTimes(u, v) && second == first
  {
    hide NormalizeDigest, AwaitReview;
    ReviewTwice(t.jobs, {t.sessions[h].jobId, t.sessions[call.session].jobId});
    var u := Compare(t, call, id, digest, Some(h)).0;
    assert u.sessions[h].resultSha == t.sessions[h].resultSha && u.sessions[h].manifest == t.sessions[h].manifest;
    assert u.sessions[h].digest == t.sessions[h].digest;
    assert u.sessions[h].jobId == t.sessions[h].jobId
      && u.sessions[call.session].jobId == t.sessions[call.session].jobId;
  }

  lemma ReplayOfKnown(t: Tables, call: Call, id: string, h: string, later: int)
    requires WellFormed(t) && Comparable(t, call) && id == Strip(call.completionId.value)
    requires Holder(t.sessions, id) == Some(h) && Holder(Submit(t, call).0.sessions, id) == Some(h)
    ensures var (u, first) := Submit(t, call);
      var (v, second) := Submit(u, call.(now := later));
      SameButTimes(u, v) && second == first
  {
    var digest := NormalizeDigest(call.digest).value;
    HolderDigest(t, id, h);
    hide NormalizeDigest, Strip, IsDigest, WellFormed, Holder, SameButTimes, Compare;
    if t.sessions[h].digest == Some(digest) {
      ReplayOfDuplicate(t, call, id, digest, h, later);
    } else {
      ReplayOfConflict(t, call, id, digest, h, later);
    }
  }

  // ---------------------------------------------------------------- whole histories

  ghost function RunCalls(t: Tables, calls: seq<Call>): Tables {
    if calls == [] then t else Submit(RunCalls(t, calls[..|calls| - 1]), calls[|calls| - 1]).0
  }

  /** Every call of the history is disciplined in the tables it meets. */
  ghost predicate DisciplinedHistory(t: Tables, calls: seq<Call>) {
    calls != [] ==>
      && DisciplinedHistory(t, calls[..|calls| - 1])
      && Disciplined(RunCalls(t, calls[..|calls| - 1]), calls[|calls| - 1])
  }

  lemma {:induction false} HistoryKeepsTables(t: Tables, calls: seq<Call>)
    requires WellFormed(t)
    ensures WellFormed(RunCalls(t, calls))
  {
    hide WellFormed, Submit;
    if calls != [] {
      HistoryKeepsTables(t, calls[..|calls| - 1]);
      CallKeepsTables(RunCalls(t, calls[..|calls| - 1]), calls[|calls| - 1]);
    }
  }

  lemma KeepsHoldersTwice(t: Tables, u: Tables, v: Tables)
    requires KeepsHolders(t, u) && KeepsHolders(u, v)
    ensures KeepsHolders(t, v)
  {
    forall s | s in t.sessions && t.sessions[s].completionId.Some? ensures SameIdentity(t.sessions[s], v.sessions[s]) {
      assert SameIdentity(t.sessions[s], u.sessions[s]);
      assert SameIdentity(u.sessions[s], v.sessions[s]);
    }
  }

  /** Over every disciplined history, ids stay unique and whoever holds an id keeps it, together with its
      digest, result, manifest and the fact that it was quarantined. */
  lemma {:induction false} HoldersSurviveHistories(t: Tables, calls: seq<Call>)
    requires WellFormed(t) && DisciplinedHistory(t, calls)
    ensures UniqueIds(RunCalls(t, calls).sessions)
    ensures KeepsHolders(t, RunCalls(t, calls))
  {
    HistoryKeepsTables(t, calls);
    Unique(RunCalls(t, calls));
    hide WellFormed, Submit, UniqueIds, Disciplined;
    if calls != [] {
      var before := calls[..|calls| - 1];
      hide KeepsHolders;
      HoldersSurviveHistories(t, before);
      HistoryKeepsTables(t, before);
      CallKeepsHolders(RunCalls(t, before), calls[|calls| - 1]);
      KeepsHoldersTwice(t, RunCalls(t, before), RunCalls(t, calls));
    }
  }

  // ---------------------------------------------------------------- late replays

  /** A holder that a history met is still the one found under its id, with the same identity. */
  lemma HolderAfterHistory(t: Tables, calls: seq<Call>, id: string, h: string)
    requires WellFormed(t) && DisciplinedHistory(t, calls) && Holds(t.sessions, id, h)
    ensures var v := RunCalls(t, calls);
      && WellFormed(v) && v.sessions.Keys == t.sessions.Keys && SameIdentity(t.sessions[h], v.sessions[h])
      && Holds(v.sessions, id, h) && Holder(v.sessions, id) == Some(h)
  {
    HoldersSurviveHistories(t, calls);
    HistoryKeepsTables(t, calls);
    hide RunCalls, WellFormed, DisciplinedHistory, UniqueIds;
    HolderOf(RunCalls(t, calls), id, h);
  }

  /** A replay of a stored submission after any disciplined history writes nothing: it is a duplicate of its own
      session, answered with the result and manifest recorded then. */
  lemma LateReplayIsSilent(t: Tables, call: Call, calls: seq<Call>, later: int)
    requires WellFormed(t) && Disciplined(t, call) && Submit(t, call).1.Stored?
    requires DisciplinedHistory(Submit(t, call).0, calls)
    ensures var u := Submit(t, call).0;
      var v := RunCalls(u, calls);
      && call.session in u.sessions && call.session in v.sessions
      && Submit(v, call.(now := later))
         == (v, Duplicate(call.session, u.sessions[call.session].resultSha, u.sessions[call.session].manifest,
                          v.sessions[call.session].quarantine))
  {
    hide NormalizeDigest, Strip, IsDigest, UniqueIds, WellFormed, Holder;
    var u := Submit(t, call).0;
    var id := Strip(call.completionId.value);
    CallKeepsTables(t, call);
    assert Holds(u.sessions, id, call.session);
    HolderAfterHistory(u, calls, id, call.session);
    HolderDigest(RunCalls(u, calls), id, call.session);
    hide RunCalls, DisciplinedHistory;
  }

  /** A late replay of any other submission is still a duplicate, or still quarantined, against the same holder with
      the same result. */
  lemma LateReplayAnswersAlike(t: Tables, call: Call, calls: seq<Call>, later: int)
    requires WellFormed(t) && Disciplined(t, call)
    requires DisciplinedHistory(Submit(t, call).0, calls)
    requires Submit(t, call).1.Duplicate? || Submit(t, call).1.Quarantined?
    ensures var (u, first) := Submit(t, call);
      var second := Submit(RunCalls(u, calls), call.(now := later)).1;
      && second.Duplicate? == first.Duplicate? && second.Quarantined? == first.Quarantined?
      && second.session == first.session
      && second.resultSha == first.resultSha && second.manifest == first.manifest
      && (first.Quarantined? ==> second.sessions == first.sessions && second.reason.incoming == call.session)
  {
    hide NormalizeDigest, Strip, IsDigest, UniqueIds, WellFormed, Holder;
    var u := Submit(t, call).0;
    var id := Strip(call.completionId.value);
    var h := Submit(t, call).1.session;
    CallKeepsTables(t, call);
    AnswerTells(t, call);
    HolderStays(t, call, id, h);
    HolderDigest(t, id, h);
    CallKeepsHolders(t, call);
    assert Holds(u.sessions, id, h);
    HolderAfterHistory(u, calls, id, h);
    HolderDigest(RunCalls(u, calls), id, h);
    hide RunCalls, DisciplinedHistory;
  }

  /** What a late replay of a quarantined submission does rewrite: if another session conflicted in between, the
      holder's reason names that session before the replay and the replayed one after it. */
  lemma LateReplayRewritesReason(t: Tables, first: Call, other: Call, later: int)
    requires WellFormed(t) && Disciplined(t, first) && Submit(t, first).1.Quarantined?
    requires var u := Submit(t, first).0;
      Disciplined(u, other) && Submit(u, other).1.Quarantined?
        && Submit(u, other).1.session == Submit(t, first).1.session
    requires first.session != other.session
    ensures var h := Submit(t, first).1.session;
      var v := Submit(Submit(t, first).0, other).0;
      var (w, answer) := Submit(v, first.(now := later));
      && h in v.sessions && h in w.sessions && answer.Quarantined?
      && v.sessions[h].quarantine.Some? && v.sessions[h].quarantine.value.incoming == other.session
      && w.sessions[h].quarantine.Some? && w.sessions[h].quarantine.value.incoming == first.session
      && w.sessions[h].quarantine != v.sessions[h].quarantine
  {
    hide Submit, WellFormed, RunCalls, DisciplinedHistory, Disciplined;
    var u := Submit(t, first).0;
    var v := Submit(u, other).0;
    OneCall(u, other);
    LateReplayAnswersAlike(t, first, [other], later);
    CallKeepsTables(t, first);
    CallKeepsTables(u, other);
    ConflictGoesToReview(u, other);
    ConflictGoesToReview(v, first.(now := later));
    ReasonNamesCaller(u, other);
    ReasonNamesCaller(v, first.(now := later));
  }

  lemma OneCall(t: Tables, call: Call)
    requires Disciplined(t, call)
    ensures RunCalls(t, [call]) == Submit(t, call).0 && DisciplinedHistory(t, [call])
  {
    assert [call][..0] == [];
    hide Submit, Disciplined;
  }

  lemma ReasonNamesCaller(t: Tables, call: Call)
    requires Submit(t, call).1.Quarantined?
    ensures Submit(t, call).1.reason.incoming == call.session
  {
    hide NormalizeDigest, Strip;
  }

  // ---------------------------------------------------------------- the exact condition

  function RepeatedDigit(c: char): string {
    seq(64, i => c)
  }

  /** A digest that is neither of two given ones. */
  function OtherDigest(a: Option<string>, b: Option<string>): (d: string)
    ensures IsDigest(d) && Some(d) != a && Some(d) != b
  {
    var zeros, ones, twos := RepeatedDigit('0'), RepeatedDigit('1'), RepeatedDigit('2');
    assert zeros[0] != ones[0] && zeros[0] != twos[0] && ones[0] != twos[0];
    if Some(zeros) != a && Some(zeros) != b then zeros
    else if Some(ones) != a && Some(ones) != b then ones
    else twos
  }

  /** When may a caller submit for a session without knowing the digests and results involved? Exactly when
      the session is unbound or bound to the id submitted: bound to another id, some completion would
      overwrite the identity it holds. */
  lemma SafeToSubmit(t: Tables, session: string, id: string, now: int)
    requires WellFormed(t) && session in t.sessions && Strip(id) != ""
    ensures (forall digest, resultSha, manifest ::
               KeepsHolders(t, Submit(t, Call(session, Some(id), digest, resultSha, manifest, now)).0))
      <==> t.sessions[session].completionId in {None, Some(Strip(id))}
  {
    if t.sessions[session].completionId in {None, Some(Strip(id))} {
      forall digest, resultSha, manifest
        ensures KeepsHolders(t, Submit(t, Call(session, Some(id), digest, resultSha, manifest, now)).0)
      {
        hide KeepsHolders, Submit, WellFormed;
        CallKeepsHolders(t, Call(session, Some(id), digest, resultSha, manifest, now));
      }
    } else {
      RebindingLoses(t, session, id, now);
    }
  }

  lemma RebindingLoses(t: Tables, session: string, id: string, now: int)
    requires WellFormed(t) && session in t.sessions && Strip(id) != ""
    requires t.sessions[session].completionId.Some? && t.sessions[session].completionId != Some(Strip(id))
    ensures exists digest :: !KeepsHolders(t, Submit(t, Call(session, Some(id), digest, None, None, now)).0)
  {
    var holder := Holder(t.sessions, Strip(id));
    var held := if holder.Some? then t.sessions[holder.value].digest else None;
    var digest := OtherDigest(t.sessions[session].digest, held);
    var call := Call(session, Some(id), Some(digest), None, None, now);
    NormalizeTwice(digest);
    if holder.Some? {
      HolderDigest(t, Strip(id), holder.value);
    }
    hide NormalizeDigest, Strip, IsDigest, WellFormed, UniqueIds;
    assert Submit(t, call).0.sessions[session].digest == Some(digest);
    assert !SameIdentity(t.sessions[session], Submit(t, call).0.sessions[session]);
    assert !KeepsHolders(t, Submit(t, call).0);
  }

  /** A replay of a stored submission returns what the row recorded, which is what the submission itself
      returned exactly when it brought the values or the row had none. */
  lemma ReplayReturnsFirstResult(t: Tables, call: Call, later: int)
    requires WellFormed(t) && Disciplined(t, call) && Submit(t, call).1.Stored?
    ensures var (u, first) := Submit(t, call);
      var second := Submit(u, call.(now := later)).1;
      && (second.resultSha == first.resultSha <==> call.resultSha.Some? || t.sessions[call.session].resultSha.None?)
      && (second.manifest == first.manifest <==> call.manifest.Some? || t.sessions[call.session].manifest.None?)
  {
    ReplayChangesNothing(t, call, later);
    var u := Submit(t, call).0;
    CallKeepsTables(t, call);
    AnswerTells(u, call.(now := later));
    hide NormalizeDigest, Strip, IsDigest, WellFormed, UniqueIds, Holder;
  }

  /** A case where it differs: a row that already recorded a result, and a submission without one. The submission
      is answered without a result, its replay with the row's. */
  lemma ReplayAnswersDifferently()
    ensures var row := Session("job", "dispatched", None, None, Some("abc"), None, None, None, 0);
      var t := Tables(map["s" := row], map["job" := Job("running", "running", "running")]);
      var call := Call("s", Some("c"), Some(RepeatedDigit('0')), None, None, 1);
      var (u, first) := Submit(t, call);
      && WellFormed(t) && Disciplined(t, call)
      && first == Stored("s", None, None)
      && Submit(u, call).1 == Duplicate("s", Some("abc"), None, None)
  {
    var row := Session("job", "dispatched", None, None, Some("abc"), None, None, None, 0);
    var t := Tables(map["s" := row], map["job" := Job("running", "running", "running")]);
    var call := Call("s", Some("c"), Some(RepeatedDigit('0')), None, None, 1);
    assert Strip("c") == "c";
    NormalizeTwice(RepeatedDigit('0'));
    hide NormalizeDigest, Strip, IsDigest;
    assert Holder(t.sessions, "c").None?;
    var u := Submit(t, call).0;
    assert Holds(u.sessions, "c", "s");
    HolderOf(u, "c", "s");
  }
}
