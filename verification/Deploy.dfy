/**
 * Concurrent deployers of the UI update one page: each reads it, computes its own version of it, and writes that
 * back on the condition that the page is still the one it read; otherwise it starts again.
 */
module Deploy {
  import opened Bits

  type Channel = string
  type Version = string
  type Versions = map<Channel, Version>
  type Tid = nat

  const CAS_MAX_RETRIES: nat := 10

  /** A page: its markup, and the version map in it, if it has one. The text of an absent page is empty. */
  datatype Page = Page(body: string, versions: Option<Versions>)

  const EMPTY: Page := Page("", None)

  /** What a deployer puts where: a build of the stable channel brings its own markup. */
  datatype Deployer = Stable(body: string, channels: seq<Channel>, version: Version)
                    | Other(channels: seq<Channel>, version: Version)

  function PageOf(stored: Option<Page>): Page {
    if stored.Some? then stored.value else EMPTY
  }

  // ---- One update ----

  function SetAll(versions: Versions, channels: seq<Channel>, version: Version): Versions {
    if channels == [] then versions
    else SetAll(versions, channels[..|channels| - 1], version)[channels[|channels| - 1] := version]
  }

  predicate AllAt(versions: Versions, channels: seq<Channel>, version: Version) {
    forall i :: 0 <= i < |channels| ==> channels[i] in versions && versions[channels[i]] == version
  }

  /** A page with the map replaced; a page without one has no place for it. */
  function ReplaceVersions(page: Page, versions: Versions): Page {
    if page.versions.None? then page else page.(versions := Some(versions))
  }

  /** Nothing when the deployer refuses to write. */
  function Update(d: Deployer, page: Page): Option<Page> {
    match d
    case Other(channels, version) =>
      if page.versions.None? then None
      else if AllAt(page.versions.value, channels, version) then Some(page)
      else Some(ReplaceVersions(page, SetAll(page.versions.value, channels, version)))
    case Stable(body, channels, version) =>
      var merged := if page.versions.Some? then page.versions.value else map[];
      Some(ReplaceVersions(Page(body, Some(map[])), SetAll(merged, channels, version)))
  }

  function EntryOf(page: Page, c: Channel): Option<Version> {
    if page.versions.Some? && c in page.versions.value then Some(page.versions.value[c]) else None
  }

  lemma {:induction false} SetAllSets(versions: Versions, channels: seq<Channel>, version: Version, c: Channel)
    ensures c in channels ==> c in SetAll(versions, channels, version)
    ensures c in channels ==> SetAll(versions, channels, version)[c] == version
    ensures c !in channels ==>
      (c in SetAll(versions, channels, version) <==> c in versions)
      && (c in versions ==> SetAll(versions, channels, version)[c] == versions[c])
  {
    if channels == [] {
    } else {
      var n := |channels| - 1;
      SetAllSets(versions, channels[..n], version, c);
      assert channels == channels[..n] + [channels[n]];
    }
  }

  /**
   * An update points every listed channel at the new version and leaves the others where they were, even when it
   * replaces all the markup; and it is refused exactly when there is no map to update and none is brought.
   */
  lemma UpdateSetsListed(d: Deployer, page: Page, c: Channel)
    ensures Update(d, page).None? <==> d.Other? && page.versions.None?
    ensures Update(d, page).Some? ==>
      EntryOf(Update(d, page).value, c) == if c in d.channels then Some(d.version) else EntryOf(page, c)
    ensures Update(d, page).Some? ==> Update(d, page).value.versions.Some?
    ensures Update(d, page).Some? ==> Update(d, page).value.body == if d.Stable? then d.body else page.body
  {
    var versions := if page.versions.Some? then page.versions.value else map[];
    SetAllSets(versions, d.channels, d.version, c);
  }

  // ---- The loop of one deployer ----

  datatype Outcome = Written | NoChange | Refused | Exhausted

  /** The stored page, with conditional writes. */
  class Bucket {
    var stored: Option<Page>

    constructor (initial: Option<Page>)
      ensures stored == initial
    {
      stored := initial;
    }

    /** If-Match with the page that was read, or If-None-Match when there was none. */
    method CasWrite(page: Page, seen: Option<Page>) returns (ok: bool)
      modifies this
      ensures ok <==> old(stored) == seen
      ensures stored == if ok then Some(page) else old(stored)
    {
      ok := stored == seen;
      if ok {
        stored := Some(page);
      }
    }

    /** What the other deployers make of the page while this one is computing its update. */
    method Meddle(others: Option<Page> -> Option<Page>)
      modifies this
      ensures stored == others(old(stored))
    {
      stored := others(stored);
    }
  }

  /** What others do to the page during each attempt, between its read and its write. */
  type Others = nat -> Option<Page> -> Option<Page>

  /** The page that the others alone leave behind, `k` attempts on. */
  function Left(stored: Option<Page>, others: Others, k: nat): Option<Page> {
    if k == 0 then stored else others(k - 1)(Left(stored, others, k - 1))
  }

  /** The deployer has something to write on top of this page. */
  predicate Wants(d: Deployer, seen: Option<Page>) {
    Update(d, PageOf(seen)).Some? && !(seen.Some? && Update(d, seen.value) == seen)
  }

  /** Others changed the page between the read and the write of attempt `m`. */
  predicate LosesRace(d: Deployer, stored: Option<Page>, others: Others, m: nat) {
    Wants(d, Left(stored, others, m)) && others(m)(Left(stored, others, m)) != Left(stored, others, m)
  }

  /**
   * How the loop ends in attempt `k`. All earlier attempts lost their races and left no trace; a page is written only
   * on top of the page that the others left and that nobody changed meanwhile; and otherwise the page stays theirs.
   */
  ghost predicate Ends(d: Deployer, stored: Option<Page>, others: Others, k: nat, outcome: Outcome,
                       after: Option<Page>) {
    var left := Left(stored, others, k);
    && (forall m :: 0 <= m < k ==> LosesRace(d, stored, others, m))
    && (outcome.Exhausted? <==> k == CAS_MAX_RETRIES) && k <= CAS_MAX_RETRIES
    && match outcome
       case Written => Wants(d, left) && others(k)(left) == left && after == Update(d, PageOf(left))
       case NoChange => after == left && left.Some? && Update(d, left.value) == left
       case Refused => after == left && Update(d, PageOf(left)).None?
       case Exhausted => after == left
  }

  method CasWriteHtml(bucket: Bucket, d: Deployer, others: Others) returns (outcome: Outcome, ghost k: nat)
    modifies bucket
    ensures Ends(d, old(bucket.stored), others, k, outcome, bucket.stored)
  {
    hide Update, PageOf, Left, LosesRace;
    ghost var stored := bucket.stored;
    LeftAtFirst(stored, others);
    for attempt := 0 to CAS_MAX_RETRIES
      invariant bucket.stored == Left(stored, others, attempt)
      invariant forall m :: 0 <= m < attempt ==> LosesRace(d, stored, others, m)
    {
      k := attempt;
      var seen := bucket.stored;
      var current := PageOf(seen);
      PageOfSome(seen);
      var page := Update(d, current);
      if page.None? {
        return Refused, k;
      }
      if page.value == current && seen.Some? {
        return NoChange, k;
      }
      bucket.Meddle(others(attempt));
      var ok := bucket.CasWrite(page.value, seen);
      if ok {
        return Written, k;
      }
      RaceLost(d, stored, others, attempt);
    }
    return Exhausted, CAS_MAX_RETRIES;
  }

  lemma PageOfSome(stored: Option<Page>)
    ensures stored.Some? ==> PageOf(stored) == stored.value
  {
  }

  lemma LeftAtFirst(stored: Option<Page>, others: Others)
    ensures Left(stored, others, 0) == stored
  {
  }

  lemma RaceLost(d: Deployer, stored: Option<Page>, others: Others, m: nat)
    requires Wants(d, Left(stored, others, m)) && others(m)(Left(stored, others, m)) != Left(stored, others, m)
    ensures LosesRace(d, stored, others, m) && Left(stored, others, m + 1) == others(m)(Left(stored, others, m))
  {
  }

  lemma EndLosesNoRace(d: Deployer, stored: Option<Page>, others: Others, k: nat, outcome: Outcome, after: Option<Page>)
    requires Ends(d, stored, others, k, outcome, after)
    ensures k < CAS_MAX_RETRIES ==> !LosesRace(d, stored, others, k)
  {
    hide Update, Left;
  }

  lemma RaceWasLost(d: Deployer, stored: Option<Page>, others: Others, k: nat, outcome: Outcome, after: Option<Page>,
                    m: nat)
    requires Ends(d, stored, others, k, outcome, after) && m < k
    ensures LosesRace(d, stored, others, m) && m < CAS_MAX_RETRIES
  {
    hide LosesRace;
  }

  /** The page and what the others do decide in which attempt the loop ends, how, and with which page. */
  lemma EndIsDetermined(d: Deployer, stored: Option<Page>, others: Others, k: nat, outcome: Outcome,
                        after: Option<Page>,
                        k': nat, outcome': Outcome, after': Option<Page>)
    requires Ends(d, stored, others, k, outcome, after) && Ends(d, stored, others, k', outcome', after')
    ensures k == k' && outcome == outcome' && after == after'
  {
    hide Update, PageOf, Left, LosesRace;
    PageOfSome(Left(stored, others, k));
    EndLosesNoRace(d, stored, others, k, outcome, after);
    EndLosesNoRace(d, stored, others, k', outcome', after');
    if k < k' {
      RaceWasLost(d, stored, others, k', outcome', after', k);
    } else if k' < k {
      RaceWasLost(d, stored, others, k, outcome, after, k');
    }
  }

  /**
   * When the loop ends well, nothing that anyone else wrote before or during it is undone: the listed channels have
   * the new version, and every other one is as the others left it.
   */
  lemma EndingWellKeepsOthers(d: Deployer, stored: Option<Page>, others: Others, k: nat, outcome: Outcome,
                              after: Option<Page>, c: Channel)
    requires Ends(d, stored, others, k, outcome, after) && (outcome.Written? || outcome.NoChange?)
    ensures after.Some?
    ensures EntryOf(after.value, c) ==
            if c in d.channels then Some(d.version) else EntryOf(PageOf(Left(stored, others, k)), c)
  {
    hide Update, EntryOf, Left;
    var left := Left(stored, others, k);
    UpdateSetsListed(d, PageOf(left), c);
  }

  // ---- Any number of deployers at once ----

  /**
   * Where a deployer stands: before a read, with what it read, or at its end. It carries the number of writes that
   * there had been at its first read, and at its last.
   */
  datatype Pc =
    | Ready(attempt: nat, first: nat)
    | HasRead(attempt: nat, first: nat, seen: Option<Page>, readAt: nat)
    | Ended(outcome: Outcome, first: nat)

  datatype State = State(stored: Option<Page>, pcs: map<Tid, Pc>, commits: seq<Tid>)

  ghost predicate ReadStep(s: State, s': State, t: Tid) {
    && t in s.pcs && s.pcs[t].Ready?
    && var p := s.pcs[t];
       var first := if p.attempt == 0 then |s.commits| else p.first;
       s' == s.(pcs := s.pcs[t :=
         if p.attempt >= CAS_MAX_RETRIES then Ended(Exhausted, first)
         else HasRead(p.attempt, first, s.stored, |s.commits|)])
  }

  ghost predicate WriteStep(s: State, s': State, t: Tid, d: Deployer) {
    && t in s.pcs && s.pcs[t].HasRead?
    && var seen, first := s.pcs[t].seen, s.pcs[t].first;
       var page := Update(d, PageOf(seen));
       if page.None? then s' == s.(pcs := s.pcs[t := Ended(Refused, first)])
       else if page.value == PageOf(seen) && seen.Some? then s' == s.(pcs := s.pcs[t := Ended(NoChange, first)])
       else if s.stored == seen then s' == State(Some(page.value), s.pcs[t := Ended(Written, first)], s.commits + [t])
       else s' == s.(pcs := s.pcs[t := Ready(s.pcs[t].attempt + 1, first)])
  }

  type Fleet = map<Tid, Deployer>

  ghost predicate Next(s: State, s': State, fleet: Fleet) {
    exists t :: t in fleet && (ReadStep(s, s', t) || WriteStep(s, s', t, fleet[t]))
  }

  ghost predicate Init(s: State, fleet: Fleet) {
    && s.commits == [] && s.pcs.Keys == fleet.Keys
    && forall t :: t in s.pcs ==> s.pcs[t] == Ready(0, 0)
  }

  /** The updates of the deployers that wrote, one on top of the other. */
  function Folded(initial: Option<Page>, commits: seq<Tid>, fleet: Fleet): Option<Page> {
    if commits == [] then initial
    else
      var n := |commits| - 1;
      var before := Folded(initial, commits[..n], fleet);
      if commits[n] in fleet then Update(fleet[commits[n]], PageOf(before)) else before
  }

  /** What a deployer read is what the page was after so many writes, and each retry it needed was another's write. */
  ghost predicate PcOk(t: Tid, pc: Pc, initial: Option<Page>, commits: seq<Tid>, fleet: Fleet) {
    match pc
    case Ready(attempt, first) => t !in commits && first + attempt <= |commits| && attempt <= CAS_MAX_RETRIES
    case HasRead(attempt, first, seen, n) =>
      && t !in commits && first + attempt <= n <= |commits| && attempt < CAS_MAX_RETRIES
      && seen == Folded(initial, commits[..n], fleet)
    case Ended(outcome, first) =>
      && (outcome.Written? <==> t in commits)
      && (outcome.Exhausted? ==> first + CAS_MAX_RETRIES <= |commits|)
  }

  /** Once something has been written there is a page. */
  ghost predicate AlwaysThere(initial: Option<Page>, commits: seq<Tid>, fleet: Fleet) {
    forall i :: 0 < i <= |commits| ==> Folded(initial, commits[..i], fleet).Some?
  }

  ghost predicate Inv(s: State, initial: Option<Page>, fleet: Fleet) {
    && s.pcs.Keys == fleet.Keys
    && (forall i :: 0 <= i < |s.commits| ==> s.commits[i] in fleet)
    && (forall i, j :: 0 <= i < j < |s.commits| ==> s.commits[i] != s.commits[j])
    && s.stored == Folded(initial, s.commits, fleet)
    && AlwaysThere(initial, s.commits, fleet)
    && PcsOk(s.pcs, initial, s.commits, fleet)
  }

  lemma ReadKeeps(s: State, s': State, initial: Option<Page>, fleet: Fleet, t: Tid)
    requires Inv(s, initial, fleet) && ReadStep(s, s', t)
    ensures Inv(s', initial, fleet)
  {
    assert s.commits[..|s.commits|] == s.commits;
    assert PcOk(t, s.pcs[t], initial, s.commits, fleet);
    hide Folded;
  }

  lemma PcSurvives(u: Tid, pc: Pc, initial: Option<Page>, commits: seq<Tid>, fleet: Fleet, t: Tid)
    requires PcOk(u, pc, initial, commits, fleet) && u != t
    ensures PcOk(u, pc, initial, commits + [t], fleet)
  {
    hide Folded;
    if pc.HasRead? {
      assert (commits + [t])[..pc.readAt] == commits[..pc.readAt];
    }
  }

  lemma FoldedOneMore(initial: Option<Page>, commits: seq<Tid>, fleet: Fleet, t: Tid)
    requires t in fleet
    ensures Folded(initial, commits + [t], fleet) == Update(fleet[t], PageOf(Folded(initial, commits, fleet)))
  {
    assert (commits + [t])[..|commits|] == commits;
    hide Update;
  }

  lemma AlwaysThereGrows(initial: Option<Page>, commits: seq<Tid>, fleet: Fleet, t: Tid)
    requires AlwaysThere(initial, commits, fleet) && Folded(initial, commits + [t], fleet).Some?
    ensures AlwaysThere(initial, commits + [t], fleet)
  {
    hide Folded;
    var after := commits + [t];
    forall i | 0 < i <= |after|
      ensures Folded(initial, after[..i], fleet).Some?
    {
      assert i == |after| ==> after[..i] == after;
      assert i <= |commits| ==> after[..i] == commits[..i];
    }
  }

  ghost predicate PcsOk(pcs: map<Tid, Pc>, initial: Option<Page>, commits: seq<Tid>, fleet: Fleet) {
    forall t :: t in pcs ==> PcOk(t, pcs[t], initial, commits, fleet)
  }

  lemma PcsAfterCommit(pcs: map<Tid, Pc>, initial: Option<Page>, commits: seq<Tid>, fleet: Fleet, t: Tid,
                       first: nat)
    requires PcsOk(pcs, initial, commits, fleet)
    ensures PcsOk(pcs[t := Ended(Written, first)], initial, commits + [t], fleet)
  {
    assert PcOk(t, Ended(Written, first), initial, commits + [t], fleet);
    hide PcOk;
    forall u | u in pcs && u != t
      ensures PcOk(u, pcs[u], initial, commits + [t], fleet)
    {
      PcSurvives(u, pcs[u], initial, commits, fleet, t);
    }
  }

  /** The conditional write went through. */
  lemma NotCommitted(pcs: map<Tid, Pc>, initial: Option<Page>, commits: seq<Tid>, fleet: Fleet, t: Tid)
    requires PcsOk(pcs, initial, commits, fleet) && t in pcs && pcs[t].HasRead?
    ensures t !in commits
  {
    hide Folded, PageOf, Update;
    assert PcOk(t, pcs[t], initial, commits, fleet);
  }

  lemma CommitKeeps(s: State, s': State, initial: Option<Page>, fleet: Fleet, t: Tid)
    requires Inv(s, initial, fleet) && t in fleet && t in s.pcs && s.pcs[t].HasRead?
    requires Update(fleet[t], PageOf(s.stored)).Some?
    requires s' == State(Update(fleet[t], PageOf(s.stored)), s.pcs[t := Ended(Written, s.pcs[t].first)],
                         s.commits + [t])
    ensures Inv(s', initial, fleet)
  {
    hide Update, Folded, AlwaysThere, PcOk, PcsOk, PageOf;
    NotCommitted(s.pcs, initial, s.commits, fleet, t);
    FoldedOneMore(initial, s.commits, fleet, t);
    AlwaysThereGrows(initial, s.commits, fleet, t);
    PcsAfterCommit(s.pcs, initial, s.commits, fleet, t, s.pcs[t].first);
  }

  /** The deployer wrote nothing, or its write was refused because another one had come in between. */
  lemma NoCommitKeeps(s: State, s': State, initial: Option<Page>, fleet: Fleet, t: Tid, pc: Pc)
    requires Inv(s, initial, fleet) && t in s.pcs && s' == s.(pcs := s.pcs[t := pc])
    requires PcOk(t, pc, initial, s.commits, fleet)
    ensures Inv(s', initial, fleet)
  {
    hide Folded, AlwaysThere;
  }

  lemma RetryIsOk(s: State, initial: Option<Page>, fleet: Fleet, t: Tid)
    requires Inv(s, initial, fleet) && t in s.pcs && s.pcs[t].HasRead? && s.stored != s.pcs[t].seen
    ensures PcOk(t, Ready(s.pcs[t].attempt + 1, s.pcs[t].first), initial, s.commits, fleet)
  {
    assert PcOk(t, s.pcs[t], initial, s.commits, fleet);
    assert s.commits[..|s.commits|] == s.commits;
    hide Folded, AlwaysThere;
  }

  lemma WriteKeeps(s: State, s': State, initial: Option<Page>, fleet: Fleet, t: Tid)
    requires Inv(s, initial, fleet) && t in fleet && WriteStep(s, s', t, fleet[t])
    ensures Inv(s', initial, fleet)
  {
    assert PcOk(t, s.pcs[t], initial, s.commits, fleet);
    var seen := s.pcs[t].seen;
    hide Inv, Update, Folded, PageOf;
    if s'.commits == s.commits {
      if s.stored != seen {
        RetryIsOk(s, initial, fleet, t);
      }
      NoCommitKeeps(s, s', initial, fleet, t, s'.pcs[t]);
    } else {
      CommitKeeps(s, s', initial, fleet, t);
    }
  }

  ghost predicate Run(states: seq<State>, fleet: Fleet) {
    && states != [] && Init(states[0], fleet)
    && forall i, j :: 0 <= i < |states| && j == i + 1 && j < |states| ==> Next(states[i], states[j], fleet)
  }

  lemma {:induction false} RunInv(states: seq<State>, fleet: Fleet, n: nat)
    requires Run(states, fleet) && n < |states|
    ensures Inv(states[n], states[0].stored, fleet)
    decreases n
  {
    hide Inv, ReadStep, WriteStep;
    if n == 0 {
      InitInv(states[0], fleet);
    } else {
      RunInv(states, fleet, n - 1);
      var s, s' := states[n - 1], states[n];
      var t :| t in fleet && (ReadStep(s, s', t) || WriteStep(s, s', t, fleet[t]));
      if ReadStep(s, s', t) {
        ReadKeeps(s, s', states[0].stored, fleet, t);
      } else {
        WriteKeeps(s, s', states[0].stored, fleet, t);
      }
    }
  }

  lemma InitInv(s: State, fleet: Fleet)
    requires Init(s, fleet)
    ensures Inv(s, s.stored, fleet)
  {
  }

  /**
   * No update is lost: at every point of every run the stored page is what the updates of the deployers that have
   * written make of the first page, one on top of the other in the order of their writes, each of them once.
   */
  lemma StoredIsFold(states: seq<State>, fleet: Fleet, n: nat)
    requires Run(states, fleet) && n < |states|
    ensures var s := states[n];
      && s.stored == Folded(states[0].stored, s.commits, fleet)
      && (forall i, j :: 0 <= i < j < |s.commits| ==> s.commits[i] != s.commits[j])
      && (forall t :: t in s.pcs ==> (s.pcs[t].Ended? && s.pcs[t].outcome.Written? <==> t in s.commits))
  {
    RunInv(states, fleet, n);
    var s := states[n];
    hide Folded;
    assert forall t :: t in s.pcs ==> PcOk(t, s.pcs[t], states[0].stored, s.commits, fleet);
  }

  /** The last writer that listed the channel. */
  function LastWriter(commits: seq<Tid>, fleet: Fleet, c: Channel): Option<Tid> {
    if commits == [] then None
    else
      var n := |commits| - 1;
      if commits[n] in fleet && c in fleet[commits[n]].channels then Some(commits[n])
      else LastWriter(commits[..n], fleet, c)
  }

  lemma {:induction false} LastWriterIsKnown(commits: seq<Tid>, fleet: Fleet, c: Channel)
    ensures LastWriter(commits, fleet, c).Some? ==> LastWriter(commits, fleet, c).value in fleet
  {
    if commits == [] {
    } else {
      LastWriterIsKnown(commits[..|commits| - 1], fleet, c);
    }
  }

  lemma {:induction false} FoldedEntry(initial: Option<Page>, commits: seq<Tid>, fleet: Fleet, c: Channel)
    requires AlwaysThere(initial, commits, fleet) && forall i :: 0 <= i < |commits| ==> commits[i] in fleet
    ensures LastWriter(commits, fleet, c).Some? ==> LastWriter(commits, fleet, c).value in fleet
    ensures EntryOf(PageOf(Folded(initial, commits, fleet)), c) ==
      match LastWriter(commits, fleet, c)
      case None => EntryOf(PageOf(initial), c)
      case Some(t) => Some(fleet[t].version)
  {
    LastWriterIsKnown(commits, fleet, c);
    if commits == [] {
    } else {
      var n := |commits| - 1;
      assert commits[..n + 1] == commits && Folded(initial, commits[..n + 1], fleet).Some?;
      assert forall i :: 0 <= i <= n ==> commits[..n][..i] == commits[..i];
      FoldedEntry(initial, commits[..n], fleet, c);
      UpdateSetsListed(fleet[commits[n]], PageOf(Folded(initial, commits[..n], fleet)), c);
      hide Update;
    }
  }

  /** Each channel has the version of the last deployer that wrote with it on its list, or its first entry still. */
  lemma ChannelIsLastWriters(states: seq<State>, fleet: Fleet, n: nat, c: Channel)
    requires Run(states, fleet) && n < |states|
    ensures var last := LastWriter(states[n].commits, fleet, c);
      && (last.Some? ==> last.value in fleet)
      && EntryOf(PageOf(states[n].stored), c)
           == (if last.None? then EntryOf(PageOf(states[0].stored), c) else Some(fleet[last.value].version))
  {
    RunInv(states, fleet, n);
    hide Run, Folded, LastWriter;
    FoldedEntry(states[0].stored, states[n].commits, fleet, c);
  }

  /** In this step the deployer reads the page for the first time. */
  ghost predicate FirstRead(s: State, s': State, t: Tid) {
    ReadStep(s, s', t) && s.pcs[t].attempt == 0
  }

  predicate Started(pc: Pc) {
    pc.Ready? ==> pc.attempt > 0
  }

  ghost predicate StartStep(s: State, s': State, t: Tid) {
    && t in s.pcs && t in s'.pcs
    && (Started(s'.pcs[t]) ==>
          || (Started(s.pcs[t]) && s'.pcs[t].first == s.pcs[t].first)
          || (FirstRead(s, s', t) && s'.pcs[t].first == |s.commits|))
  }

  lemma StepStarts(s: State, s': State, fleet: Fleet, t: Tid)
    requires Next(s, s', fleet) && t in s.pcs
    ensures StartStep(s, s', t)
  {
    hide Update, PageOf;
    var u :| u in fleet && (ReadStep(s, s', u) || WriteStep(s, s', u, fleet[u]));
  }

  lemma NotStartedAtFirst(states: seq<State>, fleet: Fleet, t: Tid)
    requires Run(states, fleet) && t in states[0].pcs
    ensures !Started(states[0].pcs[t])
  {
  }

  lemma {:induction false} StartOf(states: seq<State>, fleet: Fleet, n: nat, t: Tid) returns (k: nat)
    requires Run(states, fleet) && n < |states| && t in states[n].pcs && Started(states[n].pcs[t])
    ensures k < n && FirstRead(states[k], states[k + 1], t) && |states[k].commits| == states[n].pcs[t].first
    decreases n
  {
    hide Next, ReadStep, Started;
    if n == 0 {
      NotStartedAtFirst(states, fleet, t);
    } else {
      RunInv(states, fleet, n);
      RunInv(states, fleet, n - 1);
      StepStarts(states[n - 1], states[n], fleet, t);
      if Started(states[n - 1].pcs[t]) && states[n].pcs[t].first == states[n - 1].pcs[t].first {
        k := StartOf(states, fleet, n - 1, t);
      } else {
        k := n - 1;
      }
    }
  }

  /** A deployer gives up only when others have written at least ten times since it first read the page. */
  lemma GivingUpTakesOthers(states: seq<State>, fleet: Fleet, n: nat, t: Tid) returns (k: nat)
    requires Run(states, fleet) && n < |states| && t in states[n].pcs
    requires states[n].pcs[t].Ended? && states[n].pcs[t].outcome.Exhausted?
    ensures k < n && FirstRead(states[k], states[k + 1], t)
    ensures |states[n].commits| >= |states[k].commits| + 10 && t !in states[n].commits
  {
    RunInv(states, fleet, n);
    assert PcOk(t, states[n].pcs[t], states[0].stored, states[n].commits, fleet);
    hide Run, Folded;
    k := StartOf(states, fleet, n, t);
  }

  // ---- Every deployer ends ----

  /** A deployer that is not at its end can always go on. */
  lemma DeployerGoesOn(states: seq<State>, fleet: Fleet, n: nat, t: Tid) returns (s': State)
    requires Run(states, fleet) && n < |states| && t in fleet
    ensures t in states[n].pcs
    ensures states[n].pcs[t].Ready? ==> ReadStep(states[n], s', t)
    ensures states[n].pcs[t].HasRead? ==> WriteStep(states[n], s', t, fleet[t])
  {
    hide Run, Update, Folded, PcOk;
    RunInv(states, fleet, n);
    var s := states[n];
    match s.pcs[t] {
      case Ready(attempt, first) =>
        var from := if attempt == 0 then |s.commits| else first;
        s' := s.(pcs := s.pcs[t :=
          if attempt >= CAS_MAX_RETRIES then Ended(Exhausted, from)
          else HasRead(attempt, from, s.stored, |s.commits|)]);
      case HasRead(attempt, first, seen, _) =>
        var page := Update(fleet[t], PageOf(seen));
        s' := if page.None? then s.(pcs := s.pcs[t := Ended(Refused, first)])
              else if page.value == PageOf(seen) && seen.Some? then s.(pcs := s.pcs[t := Ended(NoChange, first)])
              else if s.stored == seen then State(Some(page.value), s.pcs[t := Ended(Written, first)], s.commits + [t])
              else s.(pcs := s.pcs[t := Ready(attempt + 1, first)]);
      case Ended(_, _) =>
        s' := s;
    }
  }

  /** Undisturbed it wins: if nobody has written since its read, the write makes its update the page. */
  lemma UndisturbedIsWritten(states: seq<State>, fleet: Fleet, n: nat, t: Tid, s': State)
    requires Run(states, fleet) && n < |states| && t in fleet && t in states[n].pcs
    requires states[n].pcs[t].HasRead? && states[n].pcs[t].readAt == |states[n].commits|
    requires WriteStep(states[n], s', t, fleet[t])
    ensures var page := Update(fleet[t], PageOf(states[n].stored));
      && (page.Some? ==> s'.stored == page && s'.pcs[t].Ended?)
      && (page.None? ==> s'.stored == states[n].stored && s'.pcs[t].Ended? && s'.pcs[t].outcome.Refused?)
  {
    hide Run, Update, Folded;
    RunInv(states, fleet, n);
    var s := states[n];
    assert PcOk(t, s.pcs[t], states[0].stored, s.commits, fleet);
    assert s.commits[..|s.commits|] == s.commits;
    assert s.pcs[t].seen == s.stored;
    PageOfSome(s.stored);
  }

  function StepsLeft(pc: Pc): int {
    match pc
    case Ready(attempt, _) => 2 * (CAS_MAX_RETRIES - attempt) + 1
    case HasRead(attempt, _, _, _) => 2 * (CAS_MAX_RETRIES - attempt)
    case Ended(_, _) => 0
  }

  /** A step of one deployer brings it nearer to its end and leaves the others where they are. */
  lemma DeployerNearer(s: State, s': State, fleet: Fleet, u: Tid, t: Tid)
    requires u in fleet && (ReadStep(s, s', u) || WriteStep(s, s', u, fleet[u])) && t in s.pcs
    ensures t in s'.pcs && (t != u ==> s'.pcs[t] == s.pcs[t])
    ensures t == u ==> StepsLeft(s'.pcs[t]) < StepsLeft(s.pcs[t]) || s'.pcs[t].Ended?
    ensures s.pcs[t].Ended? ==> s'.pcs[t] == s.pcs[t]
  {
    hide Update;
  }

  ghost predicate OwnStep(s: State, s': State, fleet: Fleet, t: Tid) {
    t in fleet && (ReadStep(s, s', t) || WriteStep(s, s', t, fleet[t]))
  }

  ghost function OwnSteps(states: seq<State>, fleet: Fleet, n: nat, t: Tid): nat
    requires n < |states|
    decreases n
  {
    if n == 0 then 0
    else OwnSteps(states, fleet, n - 1, t) + if OwnStep(states[n - 1], states[n], fleet, t) then 1 else 0
  }

  lemma {:induction false} StepsCount(states: seq<State>, fleet: Fleet, n: nat, t: Tid)
    requires Run(states, fleet) && n < |states| && t in fleet
    ensures t in states[n].pcs
    ensures states[n].pcs[t].Ended? || StepsLeft(states[n].pcs[t]) + OwnSteps(states, fleet, n, t) <= 21
    decreases n
  {
    hide ReadStep, WriteStep;
    if n == 0 {
    } else {
      StepsCount(states, fleet, n - 1, t);
      var s, s' := states[n - 1], states[n];
      assert Next(s, s', fleet);
      var u :| u in fleet && (ReadStep(s, s', u) || WriteStep(s, s', u, fleet[u]));
      DeployerNearer(s, s', fleet, u, t);
      if OwnStep(s, s', fleet, t) {
        DeployerNearer(s, s', fleet, t, t);
      }
    }
  }

  /** Whatever the others do, a deployer is at its end after at most 21 steps of its own: ten reads and writes. */
  lemma DeployerEnds(states: seq<State>, fleet: Fleet, n: nat, t: Tid)
    requires Run(states, fleet) && n < |states| && t in fleet && OwnSteps(states, fleet, n, t) >= 21
    ensures t in states[n].pcs && states[n].pcs[t].Ended?
  {
    hide Run, OwnSteps, Update, Folded;
    StepsCount(states, fleet, n, t);
    RunInv(states, fleet, n);
    assert PcOk(t, states[n].pcs[t], states[0].stored, states[n].commits, fleet);
  }
}
