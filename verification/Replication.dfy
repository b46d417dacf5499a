/** The replication views (replication.go and scheduler.go) as folds over the documents they saw. */
module Replication {
  import opened Errors

  type Time = nat // zero is Go's zero time

  /** The states that set a time. */
  const STARTED := "triggered"
  const FAILED := "error"
  const COMPLETE := "completed"

  datatype ReplicatorDoc = ReplicatorDoc(
    replicationID: string, source: string, target: string,
    state: string, stateTime: Time, error: Option<string>)

  /** The fields of a legacy replication. */
  datatype View = View(
    replicationID: string, source: string, target: string,
    startTime: Time, endTime: Time, state: string, err: Option<string>)

  const NEW_VIEW := View("", "", "", 0, 0, "", None)

  class Replication {
    var replicationID: string
    var source: string
    var target: string
    var startTime: Time
    var endTime: Time
    var state: string
    var err: Option<string>

    constructor ()
      ensures Get() == View("", "", "", 0, 0, "", None)
    {
      replicationID, source, target, startTime, endTime, state, err := "", "", "", 0, 0, "", None;
    }

    function Get(): View
      reads this
    {
      View(replicationID, source, target, startTime, endTime, state, err)
    }

    method SetFromReplicatorDoc(doc: ReplicatorDoc)
      modifies this
      ensures Get() == Update(old(Get()), doc)
    {
      if doc.state == STARTED {
        startTime := doc.stateTime;
      } else if doc.state == FAILED || doc.state == COMPLETE {
        endTime := doc.stateTime;
      }
      state := doc.state;
      err := doc.error;
      if source == "" {
        source := doc.source;
      }
      if target == "" {
        target := doc.target;
      }
      if replicationID == "" {
        replicationID := doc.replicationID;
      }
    }

    /** updateMain: a document that cannot be fetched changes nothing. */
    method UpdateMain(fetched: Result<ReplicatorDoc>) returns (e: Option<Error>)
      modifies this
      ensures match fetched
              case Err(x) => e == Some(x) && Get() == old(Get())
              case Ok(doc) => e.None? && Get() == Update(old(Get()), doc)
    {
      match fetched
      case Err(x) => e := Some(x);
      case Ok(doc) =>
        SetFromReplicatorDoc(doc);
        e := None;
    }
  }

  function Update(v: View, doc: ReplicatorDoc): View {
    View(if v.replicationID == "" then doc.replicationID else v.replicationID,
         if v.source == "" then doc.source else v.source,
         if v.target == "" then doc.target else v.target,
         if doc.state == STARTED then doc.stateTime else v.startTime,
         if doc.state == FAILED || doc.state == COMPLETE then doc.stateTime else v.endTime,
         doc.state, doc.error)
  }

  function Fold(v: View, docs: seq<ReplicatorDoc>): View
    decreases |docs|
  {
    if docs == [] then v else Fold(Update(v, docs[0]), docs[1..])
  }

  function FirstNonEmpty(names: seq<string>): string {
    if names == [] then "" else if names[0] != "" then names[0] else FirstNonEmpty(names[1..])
  }

  /** The name at the first place that is not empty, or nothing if there is no such place. */
  lemma {:induction false} FirstNonEmptyIs(names: seq<string>, i: nat)
    requires i <= |names| && forall j :: 0 <= j < i ==> names[j] == ""
    requires i < |names| ==> names[i] != ""
    ensures FirstNonEmpty(names) == if i < |names| then names[i] else ""
    decreases i
  {
    if i > 0 {
      FirstNonEmptyIs(names[1..], i - 1);
    }
  }

  function Map<A, B>(s: seq<A>, f: A -> B): (r: seq<B>)
    ensures |r| == |s|
  {
    seq(|s|, i requires 0 <= i < |s| => f(s[i]))
  }

  /** The time of the last document in one of the given states, or zero. */
  function LastTime(docs: seq<ReplicatorDoc>, states: set<string>): (r: Time)
    ensures (r == 0 && forall d :: d in docs ==> d.state !in states) ||
            exists i :: 0 <= i < |docs| && docs[i].state in states && r == docs[i].stateTime &&
                        forall j :: i < j < |docs| ==> docs[j].state !in states
    decreases |docs|
  {
    if docs == [] then 0
    else
      var last, before := docs[|docs| - 1], docs[..|docs| - 1];
      assert docs == before + [last];
      assert forall j :: 0 <= j < |before| ==> before[j] == docs[j];
      if last.state in states then last.stateTime else LastTime(before, states)
  }

  lemma {:induction false} FoldSnoc(v: View, docs: seq<ReplicatorDoc>, doc: ReplicatorDoc)
    ensures Fold(v, docs + [doc]) == Update(Fold(v, docs), doc)
    decreases |docs|
  {
    hide Update;
    if docs == [] {
      assert (docs + [doc])[1..] == [];
    } else {
      assert (docs + [doc])[1..] == docs[1..] + [doc];
      FoldSnoc(Update(v, docs[0]), docs[1..], doc);
    }
  }

  lemma {:induction false} FirstNonEmptySnoc(names: seq<string>, x: string)
    ensures FirstNonEmpty(names + [x]) == if FirstNonEmpty(names) != "" then FirstNonEmpty(names) else x
  {
    if names == [] {
      assert (names + [x])[1..] == [];
    } else {
      assert (names + [x])[1..] == names[1..] + [x];
      FirstNonEmptySnoc(names[1..], x);
    }
  }

  /**
   What a legacy view shows after any non-empty run of updates: the first names that were not
   empty, the last state and error, and the times of the last started and last ended documents.
   */
  lemma {:induction false} LegacyView(docs: seq<ReplicatorDoc>)
    requires docs != []
    ensures Fold(View("", "", "", 0, 0, "", None), docs) ==
            View(FirstNonEmpty(Map(docs, (d: ReplicatorDoc) => d.replicationID)),
                 FirstNonEmpty(Map(docs, (d: ReplicatorDoc) => d.source)),
                 FirstNonEmpty(Map(docs, (d: ReplicatorDoc) => d.target)),
                 LastTime(docs, {"triggered"}), LastTime(docs, {"error", "completed"}),
                 docs[|docs| - 1].state, docs[|docs| - 1].error)
    decreases |docs|
  {
    var before, last := docs[..|docs| - 1], docs[|docs| - 1];
    assert docs == before + [last];
    FoldSnoc(NEW_VIEW, before, last);
    var ids, sources, targets :=
      (d: ReplicatorDoc) => d.replicationID, (d: ReplicatorDoc) => d.source, (d: ReplicatorDoc) => d.target;
    assert Map(docs, ids) == Map(before, ids) + [last.replicationID];
    assert Map(docs, sources) == Map(before, sources) + [last.source];
    assert Map(docs, targets) == Map(before, targets) + [last.target];
    FirstNonEmptySnoc(Map(before, ids), last.replicationID);
    FirstNonEmptySnoc(Map(before, sources), last.source);
    FirstNonEmptySnoc(Map(before, targets), last.target);
    if before != [] {
      LegacyView(before);
    } else {
      assert Fold(NEW_VIEW, before) == NEW_VIEW;
    }
  }

  // -------------------------------------------------------------- the scheduler's view

  datatype Identity = Identity(
    docID: string, database: string, replicationID: string, source: string, target: string, startTime: Time)

  datatype Progress = Progress(lastUpdated: Time, state: string, info: Option<string>)

  /** A document of the scheduler: who it is about, and how it stands. */
  datatype SchedulerDoc = SchedulerDoc(id: Identity, progress: Progress)

  class SchedulerReplication {
    var id: Identity
    var progress: Progress

    constructor (docID: string, database: string)
      ensures id == Identity(docID, database, "", "", "", 0) && progress == Progress(0, "", None)
    {
      id, progress := Identity(docID, database, "", "", "", 0), Progress(0, "", None);
    }

    method SetFromDoc(doc: SchedulerDoc)
      modifies this
      ensures SchedulerDoc(id, progress) == Set(SchedulerDoc(old(id), old(progress)), doc)
    {
      if id.source == "" {
        id := doc.id;
      }
      progress := doc.progress;
    }
  }

  function Set(v: SchedulerDoc, doc: SchedulerDoc): SchedulerDoc {
    SchedulerDoc(if v.id.source == "" then doc.id else v.id, doc.progress)
  }

  function FoldScheduler(v: SchedulerDoc, docs: seq<SchedulerDoc>): SchedulerDoc
    decreases |docs|
  {
    if docs == [] then v else FoldScheduler(Set(v, docs[0]), docs[1..])
  }

  /** The identity in the first document that names a source, else in the last one. */
  function FirstNamed(docs: seq<SchedulerDoc>): (r: Identity)
    requires docs != []
    ensures r.source == "" ==> r == docs[|docs| - 1].id && forall d :: d in docs ==> d.id.source == ""
    ensures r.source != "" ==>
              exists i :: 0 <= i < |docs| && docs[i].id == r && forall j :: 0 <= j < i ==> docs[j].id.source == ""
    decreases |docs|
  {
    if docs[0].id.source != "" || |docs| == 1 then docs[0].id
    else
      assert docs == [docs[0]] + docs[1..];
      assert forall i :: 0 <= i < |docs| - 1 ==> docs[1..][i] == docs[i + 1];
      FirstNamed(docs[1..])
  }

  lemma {:induction false} NamedStays(v: SchedulerDoc, docs: seq<SchedulerDoc>)
    requires v.id.source != ""
    ensures FoldScheduler(v, docs) ==
            SchedulerDoc(v.id, if docs == [] then v.progress else docs[|docs| - 1].progress)
    decreases |docs|
  {
    if docs != [] {
      NamedStays(Set(v, docs[0]), docs[1..]);
    }
  }

  /** What a scheduler view shows after any non-empty run of updates, from a view without a source. */
  lemma {:induction false} SchedulerView(v: SchedulerDoc, docs: seq<SchedulerDoc>)
    requires docs != [] && v.id.source == ""
    ensures FoldScheduler(v, docs) == SchedulerDoc(FirstNamed(docs), docs[|docs| - 1].progress)
    decreases |docs|
  {
    var v1 := Set(v, docs[0]);
    if v1.id.source != "" {
      NamedStays(v1, docs[1..]);
    } else if |docs| > 1 {
      SchedulerView(v1, docs[1..]);
    } else {
      assert docs[1..] == [];
    }
  }

  /** What one poll of the scheduler meets. */
  datatype Poll = Got(doc: SchedulerDoc) | Bug1000 | Failed(err: Error)

  datatype Fetched = Ready | StillWaiting | Gave(err: Error)

  /** The answers that were documents. */
  function DocsOf(polls: seq<Poll>): seq<SchedulerDoc> {
    if polls == [] then []
    else (if polls[0].Got? then [polls[0].doc] else []) + DocsOf(polls[1..])
  }

  lemma {:induction false} DocsOfSnoc(polls: seq<Poll>, p: Poll)
    ensures DocsOf(polls + [p]) == DocsOf(polls) + (if p.Got? then [p.doc] else [])
  {
    if polls == [] {
      assert (polls + [p])[1..] == [];
    } else {
      assert (polls + [p])[1..] == polls[1..] + [p];
      DocsOfSnoc(polls[1..], p);
      var head := if polls[0].Got? then [polls[0].doc] else [];
      var last := if p.Got? then [p.doc] else [];
      assert head + (DocsOf(polls[1..]) + last) == head + DocsOf(polls[1..]) + last;
    }
  }

  /**
   fetchSchedulerReplication against a finite run of answers: it polls until a document names
   a source, repeats a poll that met the known server bug, and gives up on any other error.
   */
  method FetchSchedulerReplication(docID: string, polls: seq<Poll>)
    returns (rep: SchedulerReplication, r: Fetched, used: nat)
    ensures fresh(rep) && used <= |polls|
    ensures SchedulerDoc(rep.id, rep.progress) ==
            FoldScheduler(SchedulerDoc(Identity(docID, "_replicator", "", "", "", 0), Progress(0, "", None)),
                          DocsOf(polls[..used]))
    ensures r.Ready? <==> rep.id.source != ""
    ensures r.StillWaiting? ==> used == |polls| && forall p :: p in polls ==> !p.Failed?
    ensures r.Gave? ==> used > 0 && polls[used - 1] == Failed(r.err)
    ensures forall i :: 0 <= i < used - 1 ==> !polls[i].Failed? && (polls[i].Got? ==> polls[i].doc.id.source == "")
  {
    rep := new SchedulerReplication(docID, "_replicator");
    ghost var start := SchedulerDoc(rep.id, rep.progress);
    used := 0;
    while rep.id.source == "" && used < |polls|
      invariant fresh(rep) && used <= |polls|
      invariant SchedulerDoc(rep.id, rep.progress) == FoldScheduler(start, DocsOf(polls[..used]))
      invariant forall i :: 0 <= i < used ==> !polls[i].Failed?
      invariant forall i :: 0 <= i < used - 1 ==> polls[i].Got? ==> polls[i].doc.id.source == ""
      invariant rep.id.source == "" ==> forall i :: 0 <= i < used ==> polls[i].Got? ==> polls[i].doc.id.source == ""
    {
      var p := polls[used];
      assert polls[..used + 1] == polls[..used] + [p];
      DocsOfSnoc(polls[..used], p);
      ghost var docs := DocsOf(polls[..used]);
      assert docs + [] == docs;
      used := used + 1;
      if p.Failed? {
        return rep, Gave(p.err), used;
      }
      if p.Got? {
        FoldSchedulerSnoc(start, docs, p.doc);
        rep.SetFromDoc(p.doc);
      }
    }
    r := if rep.id.source != "" then Ready else StillWaiting;
  }

  lemma {:induction false} FoldSchedulerSnoc(v: SchedulerDoc, docs: seq<SchedulerDoc>, doc: SchedulerDoc)
    ensures FoldScheduler(v, docs + [doc]) == Set(FoldScheduler(v, docs), doc)
    decreases |docs|
  {
    hide Set;
    if docs == [] {
      assert (docs + [doc])[1..] == [];
    } else {
      assert (docs + [doc])[1..] == docs[1..] + [doc];
      FoldSchedulerSnoc(Set(v, docs[0]), docs[1..], doc);
    }
  }
}
