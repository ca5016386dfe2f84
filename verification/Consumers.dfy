/** Many consumers at work at once, each on its own target, on any number of threads and ranks.
    Rebuild directories live under parent directories that several targets may share; looking up
    and removing those parents is where consumers can get into each other's way. */
module Consumers {
  import opened Common
  import opened RebuildFiles
  import opened Migration

  type Id = nat
  type Par = string

  /** For each target: the parent of its rebuild directory, and what that directory held at first. */
  datatype Layout = Layout(parentOf: map<Id, Par>, orig: map<Id, Dir>)

  datatype PathKind = DirPath | FilePath

  /** The targets, and what is at the path of each parent, if anything. */
  datatype Sys = Sys(targets: map<Id, Target>, parents: map<Par, PathKind>)

  /** One step of the consumer of one target. */
  datatype Event = Event(id: Id, act: Action)

  ghost predicate Matches(l: Layout, s: Sys) {
    l.parentOf.Keys == l.orig.Keys == s.targets.Keys
  }

  /** After preparation: every target links to its rebuild directory, and the parents are just those needed. */
  function Initial(l: Layout): (s: Sys)
    requires l.parentOf.Keys == l.orig.Keys
  {
    Sys(map id | id in l.orig :: Start(l.orig[id]), map p | p in l.parentOf.Values :: DirPath)
  }

  /** Some rebuild directory is still there under `p`. */
  predicate Occupied(l: Layout, s: Sys, p: Par)
    requires Matches(l, s)
  {
    exists id :: id in s.targets && l.parentOf[id] == p && s.targets[id].disk.reb.Some?
  }

  datatype Errno = OK | ENOENT | ENOTDIR | ENOTEMPTY

  function Rmdir(l: Layout, s: Sys, p: Par): (errno: Errno)
    requires Matches(l, s)
  {
    if p !in s.parents then ENOENT
    else if s.parents[p] == FilePath then ENOTDIR
    else if Occupied(l, s, p) then ENOTEMPTY
    else OK
  }

  /** The outcomes of the parent's `rmdir` that do not make the consumer return -1. */
  predicate Tolerated(errno: Errno) { errno == OK || errno == ENOTEMPTY || errno == ENOENT }

  /** A path below the parent can be looked up. */
  predicate Resolves(s: Sys, p: Par) { p in s.parents && s.parents[p] == DirPath }

  /** The calls that go through the parent succeed: opening the rebuild directory and removing it,
      which are by path, and removing the parent itself. */
  predicate ParentAllows(l: Layout, s: Sys, e: Event)
    requires Matches(l, s) && e.id in s.targets
  {
    var p := l.parentOf[e.id];
    match e.act
    case Begin => Resolves(s, p) || (s.targets[e.id].disk.reb.None? && p !in s.parents)
    case RmReb => Resolves(s, p)
    case RmParent => Tolerated(Rmdir(l, s, p))
    case _ => true
  }

  /** A step of one consumer in the shared file system, or None where it is not possible. */
  function SysNext(l: Layout, s: Sys, e: Event): (r: Option<Sys>)
    requires Matches(l, s)
    ensures r.Some? ==> Matches(l, r.value)
  {
    if e.id !in s.targets || !ParentAllows(l, s, e) then None
    else match Next(s.targets[e.id], e.act)
      case None => None
      case Some(t) => Some(Update(l, s, e.id, t, e.act.RmParent?))
  }

  /** One target has moved to state `t`; `rmParent` says its consumer called `rmdir` on the parent. */
  function Update(l: Layout, s: Sys, id: Id, t: Target, rmParent: bool): (u: Sys)
    requires Matches(l, s) && id in s.targets
    ensures Matches(l, u)
  {
    var p := l.parentOf[id];
    Sys(s.targets[id := t], if rmParent && Rmdir(l, s, p) == OK then s.parents - {p} else s.parents)
  }

  function SysRun(l: Layout, s: Sys, evs: seq<Event>): (r: Option<Sys>)
    requires Matches(l, s)
    ensures r.Some? ==> Matches(l, r.value)
    decreases |evs|
  {
    if evs == [] then Some(s)
    else match SysRun(l, s, evs[..|evs| - 1])
      case None => None
      case Some(u) => SysNext(l, u, evs[|evs| - 1])
  }

  // ----- each target has a history of its own -----

  /** What the consumer of `id` did in a history of the whole system. */
  function Project(evs: seq<Event>, id: Id): (acts: seq<Action>)
    decreases |evs|
  {
    if evs == [] then []
    else
      var e := evs[|evs| - 1];
      Project(evs[..|evs| - 1], id) + if e.id == id then [e.act] else []
  }

  /** Under any interleaving, a target sees exactly its own consumer's history. So everything
      proved about one target holds of each of them in every run of the whole system. */
  lemma {:induction false} TargetSeesOwnHistory(l: Layout, s: Sys, evs: seq<Event>, id: Id)
    requires Matches(l, s) && SysRun(l, s, evs).Some? && id in s.targets
    ensures Run(s.targets[id], Project(evs, id)) == Some(SysRun(l, s, evs).value.targets[id])
    decreases |evs|
  {
    if evs != [] {
      var front, e := evs[..|evs| - 1], evs[|evs| - 1];
      TargetSeesOwnHistory(l, s, front, id);
      if e.id == id {
        RunSnoc(s.targets[id], Project(front, id), e.act);
      } else {
        assert Project(evs, id) == Project(front, id);
      }
    }
  }

  // ----- shared parents -----

  /** A parent that is still there is a directory and has a rebuild directory left, or a consumer
      that has yet to try and remove it; a parent that is gone has none left. */
  ghost predicate ParentInv(l: Layout, s: Sys)
    requires Matches(l, s)
  {
    && s.parents.Keys <= l.parentOf.Values
    && (forall p :: p in s.parents ==> s.parents[p] == DirPath)
    && (forall p :: p in s.parents ==> Occupied(l, s, p) || exists id :: Pending(l, s, p, id))
    && (forall id :: id in s.targets && s.targets[id].disk.reb.Some? ==> l.parentOf[id] in s.parents)
  }

  ghost predicate Pending(l: Layout, s: Sys, p: Par, id: Id)
    requires Matches(l, s)
  {
    id in s.targets && l.parentOf[id] == p && !s.targets[id].pc.Done?
  }

  ghost predicate SysInv(l: Layout, s: Sys)
    requires Matches(l, s)
  {
    ParentInv(l, s) && forall id :: id in s.targets ==> Inv(l.orig[id], s.targets[id])
  }

  lemma InitialInv(l: Layout)
    requires l.parentOf.Keys == l.orig.Keys
    ensures Matches(l, Initial(l)) && SysInv(l, Initial(l))
  {
    var s := Initial(l);
    forall p | p in s.parents
      ensures exists id :: Pending(l, s, p, id)
    {
      var id :| id in l.parentOf && l.parentOf[id] == p;
      assert Pending(l, s, p, id);
    }
  }

  /** What a step of one consumer can mean for its parent directory. */
  lemma StepAndParent(t: Target, a: Action)
    requires Next(t, a).Some?
    ensures var t' := Next(t, a).value;
      && (t'.disk.reb.Some? ==> t.disk.reb.Some?)
      && (t'.pc.Done? && t'.disk.reb.None? ==> a.RmParent? || t == t')
      && (a.RmParent? ==> t'.disk == t.disk)
      && (a.RmReb? ==> t.disk.reb.Some?)
  {
  }

  lemma UpdateKeepsParentInv(l: Layout, s: Sys, id: Id, t': Target, rmParent: bool)
    requires Matches(l, s) && ParentInv(l, s) && id in s.targets
    requires t'.disk.reb.Some? ==> s.targets[id].disk.reb.Some?
    requires t'.pc.Done? && t'.disk.reb.None? ==> rmParent || s.targets[id] == t'
    requires rmParent ==> t'.disk == s.targets[id].disk
    ensures ParentInv(l, Update(l, s, id, t', rmParent))
  {
    var u, p := Update(l, s, id, t', rmParent), l.parentOf[id];
    forall q | q in u.parents
      ensures Occupied(l, u, q) || exists id :: Pending(l, u, q, id)
    {
      if q == p && !t'.pc.Done? {
        assert Pending(l, u, q, id);
      } else if q == p && t'.disk.reb.Some? {
        assert u.targets[id].disk.reb.Some?;
      } else if Occupied(l, s, q) {
        var other :| other in s.targets && l.parentOf[other] == q && s.targets[other].disk.reb.Some?;
        assert u.targets[other].disk.reb.Some? || other == id;
      } else {
        var other :| Pending(l, s, q, other);
        assert Pending(l, u, q, other) || other == id;
      }
    }
  }

  lemma SysStepKeepsInv(l: Layout, s: Sys, e: Event)
    requires Matches(l, s) && SysInv(l, s) && SysNext(l, s, e).Some?
    ensures SysInv(l, SysNext(l, s, e).value)
  {
    var t' := Next(s.targets[e.id], e.act).value;
    StepAndParent(s.targets[e.id], e.act);
    UpdateKeepsParentInv(l, s, e.id, t', e.act.RmParent?);
    StepKeepsInv(l.orig[e.id], s.targets[e.id], e.act);
  }

  lemma {:induction false} SysRunKeepsInv(l: Layout, s: Sys, evs: seq<Event>)
    requires Matches(l, s) && SysInv(l, s) && SysRun(l, s, evs).Some?
    ensures SysInv(l, SysRun(l, s, evs).value)
    decreases |evs|
  {
    if evs != [] {
      var front := evs[..|evs| - 1];
      SysRunKeepsInv(l, s, front);
      SysStepKeepsInv(l, SysRun(l, s, front).value, evs[|evs| - 1]);
    }
  }

  lemma ReachableSysInv(l: Layout, evs: seq<Event>, s: Sys)
    requires l.parentOf.Keys == l.orig.Keys
    requires SysRun(l, Initial(l), evs) == Some(s)
    ensures SysInv(l, s)
  {
    InitialInv(l);
    SysRunKeepsInv(l, Initial(l), evs);
  }

  /** While the invariant holds, whatever a consumer could do alone it can do here. */
  lemma ParentNeverBlocks(l: Layout, s: Sys, e: Event)
    requires Matches(l, s) && SysInv(l, s) && e.id in s.targets
    ensures SysNext(l, s, e).Some? <==> Next(s.targets[e.id], e.act).Some?
  {
    if Next(s.targets[e.id], e.act).Some? {
      StepAndParent(s.targets[e.id], e.act);
    }
  }

  /** The consumer of `id` can do in `u` exactly what it could do in `s`. */
  ghost predicate SameChoices(l: Layout, s: Sys, u: Sys, id: Id)
    requires Matches(l, s) && Matches(l, u)
  {
    forall a :: SysNext(l, u, Event(id, a)).Some? <==> SysNext(l, s, Event(id, a)).Some?
  }

  lemma StepDisturbsNobody(l: Layout, s: Sys, e: Event, other: Id)
    requires Matches(l, s) && SysInv(l, s) && SysNext(l, s, e).Some? && other in s.targets && other != e.id
    ensures SameChoices(l, s, SysNext(l, s, e).value, other)
  {
    var u := SysNext(l, s, e).value;
    SysStepKeepsInv(l, s, e);
    forall a ensures SysNext(l, u, Event(other, a)).Some? <==> SysNext(l, s, Event(other, a)).Some? {
      ParentNeverBlocks(l, s, Event(other, a));
      ParentNeverBlocks(l, u, Event(other, a));
    }
  }

  /** No consumer ever stops another. In every reachable state no lookup through a parent fails and
      no parent's `rmdir` meets an error the code does not tolerate: a consumer can take just the
      steps it could take alone, at least one without error until it is done, and steps of other
      consumers, removing the shared parent included, change nothing about that. */
  lemma NoConsumerIsDisturbed(l: Layout, evs: seq<Event>, s: Sys, id: Id)
    requires l.parentOf.Keys == l.orig.Keys
    requires SysRun(l, Initial(l), evs) == Some(s) && id in s.targets
    ensures forall a :: SysNext(l, s, Event(id, a)).Some? <==> Next(s.targets[id], a).Some?
    ensures !s.targets[id].pc.Done? ==> exists a :: Orderly(a) && SysNext(l, s, Event(id, a)).Some?
    ensures forall e: Event :: e.id != id && SysNext(l, s, e).Some? ==> SameChoices(l, s, SysNext(l, s, e).value, id)
  {
    ReachableSysInv(l, evs, s);
    forall a ensures SysNext(l, s, Event(id, a)).Some? <==> Next(s.targets[id], a).Some? {
      ParentNeverBlocks(l, s, Event(id, a));
    }
    if !s.targets[id].pc.Done? {
      var a := Progress(l.orig[id], s.targets[id]);
      assert SysNext(l, s, Event(id, a)).Some?;
    }
    forall e: Event | e.id != id && SysNext(l, s, e).Some?
      ensures SameChoices(l, s, SysNext(l, s, e).value, id)
    {
      StepDisturbsNobody(l, s, e, id);
    }
  }

  /** A rebuild directory under `p` holds hidden files, or data files that were kept. */
  ghost predicate HoldsLeft(l: Layout, s: Sys, p: Par, id: Id)
    requires Matches(l, s)
  {
    id in s.targets && l.parentOf[id] == p && s.targets[id].pc.Done? && Left(l.orig[id], s.targets[id].pc.kept) != map[]
  }

  /** When all consumers under a parent have finished, in whatever order and after whatever
      crashes, every target is in the state its last pass determines, and the parent is gone exactly
      when no rebuild directory under it has hidden files or files whose stat failed left in it. */
  lemma ParentGoneWhenAllDone(l: Layout, evs: seq<Event>, s: Sys, p: Par)
    requires l.parentOf.Keys == l.orig.Keys && p in l.parentOf.Values
    requires SysRun(l, Initial(l), evs) == Some(s)
    requires forall id :: id in s.targets && l.parentOf[id] == p ==> s.targets[id].pc.Done?
    ensures forall id :: id in s.targets && l.parentOf[id] == p ==> s.targets[id].disk == LeftDisk(l.orig[id], s.targets[id].pc.kept)
    ensures p in s.parents <==> exists id :: HoldsLeft(l, s, p, id)
  {
    ReachableSysInv(l, evs, s);
    AllDoneParent(l, s, p);
  }

  lemma AllDoneParent(l: Layout, s: Sys, p: Par)
    requires Matches(l, s) && SysInv(l, s)
    requires forall id :: id in s.targets && l.parentOf[id] == p ==> s.targets[id].pc.Done?
    ensures forall id :: id in s.targets && l.parentOf[id] == p ==> s.targets[id].disk == LeftDisk(l.orig[id], s.targets[id].pc.kept)
    ensures p in s.parents <==> exists id :: HoldsLeft(l, s, p, id)
  {
    assert forall id :: !Pending(l, s, p, id);
    forall id | id in s.targets && l.parentOf[id] == p
      ensures s.targets[id].disk == LeftDisk(l.orig[id], s.targets[id].pc.kept)
      ensures HoldsLeft(l, s, p, id) <==> s.targets[id].disk.reb.Some?
    {
      assert Inv(l.orig[id], s.targets[id]);
    }
    if p in s.parents {
      var id :| id in s.targets && l.parentOf[id] == p && s.targets[id].disk.reb.Some?;
      assert HoldsLeft(l, s, p, id);
    }
  }

  /** The single-target guarantee holds of all targets in every run of the whole system. */
  lemma SystemNoDataLoss(l: Layout, evs: seq<Event>, s: Sys, id: Id)
    requires l.parentOf.Keys == l.orig.Keys
    requires SysRun(l, Initial(l), evs) == Some(s) && id in s.targets
    ensures forall n :: n in l.orig[id] && IsData(n) ==> Safe(l.orig[id], s.targets[id].disk, n)
  {
    TargetSeesOwnHistory(l, Initial(l), evs, id);
    NoDataLoss(l.orig[id], Project(evs, id), s.targets[id]);
  }

  // ----- the whole system terminates -----

  ghost function Sum(f: map<Id, nat>, ids: set<Id>): (n: nat)
    requires ids <= f.Keys
  {
    if ids == {} then 0
    else
      var id :| id in ids;
      f[id] + Sum(f, ids - {id})
  }

  lemma {:induction false} SumWithout(f: map<Id, nat>, ids: set<Id>, id: Id)
    requires ids <= f.Keys && id in ids
    ensures Sum(f, ids) == f[id] + Sum(f, ids - {id})
  {
    var m :| m in ids && Sum(f, ids) == f[m] + Sum(f, ids - {m});
    if m != id {
      SumWithout(f, ids - {m}, id);
      SumWithout(f, ids - {id}, m);
      assert ids - {m} - {id} == ids - {id} - {m};
    }
  }

  lemma {:induction false} SumSame(f: map<Id, nat>, g: map<Id, nat>, ids: set<Id>)
    requires ids <= f.Keys && ids <= g.Keys && forall id :: id in ids ==> f[id] == g[id]
    ensures Sum(f, ids) == Sum(g, ids)
  {
    if ids != {} {
      var id :| id in ids;
      SumWithout(f, ids, id);
      SumWithout(g, ids, id);
      SumSame(f, g, ids - {id});
    }
  }

  ghost function Ranks(l: Layout, s: Sys): (f: map<Id, nat>)
    requires Matches(l, s) && SysInv(l, s)
    ensures f.Keys == s.targets.Keys
  {
    map id | id in s.targets :: Rank(l.orig[id], s.targets[id])
  }

  ghost function SysRank(l: Layout, s: Sys): (n: nat)
    requires Matches(l, s) && SysInv(l, s)
  {
    Sum(Ranks(l, s), s.targets.Keys)
  }

  /** The sum of what the targets need one by one. */
  ghost function TotalBound(l: Layout): (n: nat) {
    Sum(map id | id in l.orig :: PassBound(l.orig[id]), l.orig.Keys)
  }

  lemma SysRankDrops(l: Layout, s: Sys, e: Event)
    requires Matches(l, s) && SysInv(l, s) && Uninterrupted(e.act) && SysNext(l, s, e).Some?
    ensures SysInv(l, SysNext(l, s, e).value) && SysRank(l, SysNext(l, s, e).value) < SysRank(l, s)
  {
    SysStepKeepsInv(l, s, e);
    var u, ids := SysNext(l, s, e).value, s.targets.Keys;
    RankDrops(l.orig[e.id], s.targets[e.id], e.act);
    var f, g := Ranks(l, s), Ranks(l, u);
    assert g[e.id] < f[e.id] && forall id :: id in ids - {e.id} ==> f[id] == g[id];
    assert u.targets.Keys == ids;
    SumSame(f, g, ids - {e.id});
    SumWithout(f, ids, e.id);
    SumWithout(g, ids, e.id);
  }

  ghost predicate EventsUninterrupted(evs: seq<Event>) {
    forall i :: 0 <= i < |evs| ==> Uninterrupted(evs[i].act)
  }

  /** However the consumers are interleaved, an uninterrupted run of the system is no longer than the
      sum of the single bounds. */
  lemma {:induction false} SysRunIsBounded(l: Layout, s: Sys, evs: seq<Event>)
    requires Matches(l, s) && SysInv(l, s) && EventsUninterrupted(evs) && SysRun(l, s, evs).Some?
    ensures SysInv(l, SysRun(l, s, evs).value)
    ensures |evs| + SysRank(l, SysRun(l, s, evs).value) <= SysRank(l, s)
    decreases |evs|
  {
    if evs != [] {
      var front := evs[..|evs| - 1];
      SysRunIsBounded(l, s, front);
      SysRankDrops(l, SysRun(l, s, front).value, evs[|evs| - 1]);
    }
  }

  lemma {:induction false} ProjectUninterrupted(evs: seq<Event>, id: Id)
    requires EventsUninterrupted(evs)
    ensures AllUninterrupted(Project(evs, id))
    decreases |evs|
  {
    if evs != [] { ProjectUninterrupted(evs[..|evs| - 1], id); }
  }

  ghost predicate AllIdle(s: Sys) { forall id :: id in s.targets ==> s.targets[id].pc.Idle? }

  /** No consumer can take an error-free step. */
  ghost predicate SysStuck(l: Layout, s: Sys)
    requires Matches(l, s)
  {
    forall id, a :: Orderly(a) ==> SysNext(l, s, Event(id, a)).None?
  }

  lemma StuckTarget(l: Layout, s: Sys, id: Id)
    requires Matches(l, s) && SysInv(l, s) && SysStuck(l, s) && id in s.targets
    ensures s.targets[id].pc.Done?
  {
    if !s.targets[id].pc.Done? {
      var a := Progress(l.orig[id], s.targets[id]);
      ParentNeverBlocks(l, s, Event(id, a));
    }
  }

  /** The target is where a pass alone on it ends that could not check on the files in `kept`. */
  ghost predicate LeftAlone(l: Layout, s: Sys, id: Id, kept: set<string>)
    requires Matches(l, s) && id in s.targets
  {
    s.targets[id] == Target(LeftDisk(l.orig[id], kept), Done(kept))
  }

  lemma TargetConverges(l: Layout, s0: Sys, pass: seq<Event>, s: Sys, id: Id)
    requires Matches(l, s0) && SysInv(l, s0) && EventsUninterrupted(pass) && SysRun(l, s0, pass) == Some(s)
    requires id in s.targets && s0.targets[id].pc.Idle? && s.targets[id].pc.Done?
    ensures LeftAlone(l, s, id, BlindlyKept(Project(pass, id)))
  {
    var acts := Project(pass, id);
    TargetSeesOwnHistory(l, s0, pass, id);
    ProjectUninterrupted(pass, id);
    PassOutcome(l.orig[id], s0.targets[id], acts, s.targets[id]);
  }

  lemma StuckSystem(l: Layout, s: Sys)
    requires Matches(l, s) && SysInv(l, s) && SysStuck(l, s)
    ensures forall id :: id in s.targets ==> s.targets[id].pc.Done?
    ensures forall p :: p in s.parents <==> exists id :: HoldsLeft(l, s, p, id)
  {
    forall id | id in s.targets ensures s.targets[id].pc.Done? {
      StuckTarget(l, s, id);
    }
    forall p ensures p in s.parents <==> exists id :: HoldsLeft(l, s, p, id) {
      AllDoneParent(l, s, p);
    }
  }

  lemma IdleRank(l: Layout, s: Sys)
    requires Matches(l, s) && SysInv(l, s) && AllIdle(s)
    ensures SysRank(l, s) == TotalBound(l)
  {
    var bounds := map id | id in l.orig :: PassBound(l.orig[id]);
    forall id | id in l.orig ensures Ranks(l, s)[id] == bounds[id] {
      assert s.targets[id].pc.Idle?;
    }
    SumSame(Ranks(l, s), bounds, l.orig.Keys);
  }

  /** The system converges: restart everything after any history, let the consumers run uninterrupted
      in any interleaving until none can go on. That takes no more steps than the single passes
      together, each target is as its own pass alone would leave it, and a parent is left exactly if
      something is left under it. */
  lemma SystemConverges(l: Layout, history: seq<Event>, s0: Sys, pass: seq<Event>, s: Sys)
    requires l.parentOf.Keys == l.orig.Keys
    requires SysRun(l, Initial(l), history) == Some(s0) && AllIdle(s0)
    requires EventsUninterrupted(pass) && SysRun(l, s0, pass) == Some(s) && SysStuck(l, s)
    ensures |pass| <= TotalBound(l)
    ensures forall id :: id in s.targets ==> LeftAlone(l, s, id, BlindlyKept(Project(pass, id)))
    ensures forall p :: p in s.parents <==> exists id :: HoldsLeft(l, s, p, id)
  {
    ReachableSysInv(l, history, s0);
    SysRunIsBounded(l, s0, pass);
    IdleRank(l, s0);
    StuckSystem(l, s);
    forall id | id in s.targets ensures LeftAlone(l, s, id, BlindlyKept(Project(pass, id))) {
      TargetConverges(l, s0, pass, s, id);
    }
  }
}
