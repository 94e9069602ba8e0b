/** One invocation of `main`: parse the page, load the snapshot, diff, and
    when something is new, send the email and only then overwrite the
    snapshot with the current listings. */
module Run {
  import opened Housing
  import opened Parser
  import opened Differ
  import opened Notifier

  /** The snapshot file on disk: absent, or holding the listings last saved. */
  datatype SnapshotFile = Missing | Stored(listings: seq<Listing>)

  /** `load_snapshot`: a missing file reads as no listings. */
  function LoadSnapshot(file: SnapshotFile): seq<Listing>
  {
    match file
    case Missing => []
    case Stored(listings) => listings
  }

  /** How a run ends. `DeliveryFailed` is the send raising: the process
      stops there with a non-zero exit. `Notified` carries the reported count. */
  datatype Outcome = NoNewListings | Notified(count: nat) | DeliveryFailed

  /** The snapshot after a run, the body handed to the mailer (if any), and
      how the run ended. */
  datatype RunResult = RunResult(file: SnapshotFile, sent: Option<string>, outcome: Outcome)

  /** The listings one run reports as new. */
  function NewListings(file: SnapshotFile, anchors: seq<Anchor>): seq<Listing>
  {
    DetectNew(LoadSnapshot(file), Parse(anchors))
  }

  /** One run as a transition of the snapshot file. `deliver` is the mail
      server: whether sending a message with the given body succeeds. */
  function Step(file: SnapshotFile, anchors: seq<Anchor>, deliver: string -> bool): RunResult
  {
    var news := NewListings(file, anchors);
    if news == [] then RunResult(file, None, NoNewListings)
    else
      var body := Body(news);
      if deliver(body) then RunResult(Stored(Parse(anchors)), Some(body), Notified(|news|))
      else RunResult(file, Some(body), DeliveryFailed)
  }

  /** The snapshot file as mutable state that a run reads once and may
      overwrite once. */
  class SnapshotStore {
    var file: SnapshotFile

    constructor (initial: SnapshotFile)
      ensures file == initial
    {
      file := initial;
    }

    /** `load_snapshot`. */
    method Load() returns (listings: seq<Listing>)
      ensures listings == LoadSnapshot(file)
      ensures file.Missing? ==> listings == []
      ensures file.Stored? ==> listings == file.listings
    {
      if file.Missing? {
        return [];
      }
      listings := file.listings;
    }

    /** `save_snapshot`: a full overwrite with `data`. */
    method Save(data: seq<Listing>)
      modifies this
      ensures file == Stored(data)
    {
      file := Stored(data);
    }
  }

  /** `main`, on the anchors the page yielded. */
  method RunOnce(store: SnapshotStore, anchors: seq<Anchor>, deliver: string -> bool)
    returns (sent: Option<string>, outcome: Outcome)
    modifies store
    ensures RunResult(store.file, sent, outcome) == Step(old(store.file), anchors, deliver)
  {
    var currentListings := ParseListings(anchors);
    var previousListings := store.Load();
    var newListings := DetectNew(previousListings, currentListings);
    if newListings != [] {
      var body := ComposeBody(newListings);
      sent := Some(body);
      if !deliver(body) {
        outcome := DeliveryFailed;
        return;
      }
      store.Save(currentListings);
      outcome := Notified(|newListings|);
    } else {
      sent := None;
      outcome := NoNewListings;
    }
  }

  /** The three ways a run can end, and what each does to the snapshot: with
      nothing new no mail is sent and the file is kept; a failed send keeps the
      file; only a successful send overwrites it, with the current listings. */
  lemma StepCases(file: SnapshotFile, anchors: seq<Anchor>, deliver: string -> bool)
    ensures var r := Step(file, anchors, deliver);
      && (r.sent.None? <==> NewListings(file, anchors) == [])
      && (r.sent.Some? ==> r.sent.value == Body(NewListings(file, anchors)))
      && (r.outcome.NoNewListings? ==> r.file == file && r.sent.None?)
      && (r.outcome.DeliveryFailed? ==> r.file == file && r.sent.Some? && !deliver(r.sent.value))
      && (r.outcome.Notified? ==> r.sent.Some? && deliver(r.sent.value) && r.file == Stored(Parse(anchors))
                                  && r.outcome.count == |NewListings(file, anchors)| > 0)
  {
  }

  /** The snapshot is never written unless the mail carrying the new
      listings was accepted. */
  lemma SaveOnlyAfterSend(file: SnapshotFile, anchors: seq<Anchor>, deliver: string -> bool)
    ensures var r := Step(file, anchors, deliver);
      r.file != file ==> r.sent.Some? && deliver(r.sent.value) && r.outcome.Notified?
  {
  }

  /** Each URL appears at most once in a snapshot. */
  ghost predicate WellFormed(file: SnapshotFile)
  {
    file.Stored? ==> DistinctUrls(file.listings)
  }

  /** Every snapshot a run writes has pairwise distinct URLs, so a
      well-formed snapshot stays well-formed. */
  lemma StepKeepsSnapshotWellFormed(file: SnapshotFile, anchors: seq<Anchor>, deliver: string -> bool)
    requires WellFormed(file)
    ensures WellFormed(Step(file, anchors, deliver).file)
  {
  }

  /** With no snapshot on disk every parsed listing is new; a successful run
      saves all of them. */
  lemma RunFromMissing(anchors: seq<Anchor>, deliver: string -> bool)
    ensures NewListings(Missing, anchors) == Parse(anchors)
    ensures var r := Step(Missing, anchors, deliver);
      && (Parse(anchors) != [] ==> r.sent == Some(Body(Parse(anchors))))
      && (r.outcome.Notified? ==> r.file == Stored(Parse(anchors)))
  {
    DetectNewFromEmpty(Parse(anchors));
  }

  /** Running again on an unchanged page after a successful run finds nothing
      new: no mail, and the snapshot stays as it is. */
  lemma RerunAfterNotifyIsQuiet(file: SnapshotFile, anchors: seq<Anchor>, first: string -> bool, second: string -> bool)
    requires Step(file, anchors, first).outcome.Notified?
    ensures var after := Step(file, anchors, first).file;
      Step(after, anchors, second) == RunResult(after, None, NoNewListings)
  {
    DetectNewSelf(Parse(anchors));
  }

  /** A run that found nothing new leaves a state in which the same page
      again finds nothing new. */
  lemma RerunAfterQuietIsQuiet(file: SnapshotFile, anchors: seq<Anchor>, first: string -> bool, second: string -> bool)
    requires Step(file, anchors, first).outcome.NoNewListings?
    ensures var after := Step(file, anchors, first).file;
      Step(after, anchors, second) == RunResult(after, None, NoNewListings)
  {
  }

  /** After a failed send the next run on the same page retries the same
      mail, so no new listing is lost. */
  lemma RetryAfterFailure(file: SnapshotFile, anchors: seq<Anchor>, first: string -> bool, second: string -> bool)
    requires Step(file, anchors, first).outcome.DeliveryFailed?
    ensures var after := Step(file, anchors, first).file;
      && after == file
      && Step(after, anchors, second).sent == Step(file, anchors, first).sent
  {
  }

  /** The page of the end-to-end example parses to rooms A and B. */
  lemma TwoRoomsParse()
    ensures Parse([Anchor("Room A", Some("/wohnen/a")), Anchor("Room B", Some("/wohnen/b"))])
            == [Listing("Room A", SiteOrigin + "/wohnen/a"), Listing("Room B", SiteOrigin + "/wohnen/b")]
  {
    var roomA := Listing("Room A", SiteOrigin + "/wohnen/a");
    var roomB := Listing("Room B", SiteOrigin + "/wohnen/b");
    var anchors := [Anchor("Room A", Some("/wohnen/a")), Anchor("Room B", Some("/wohnen/b"))];
    assert anchors[..1] == [anchors[0]] && [anchors[0]][..0] == [];
    assert Kept(anchors) == [roomA, roomB];
    assert roomA.url[|SiteOrigin| + 8] == 'a' && roomB.url[|SiteOrigin| + 8] == 'b';
    DedupOfDistinct([roomA, roomB]);
  }

  /** The end-to-end example: a snapshot holding room A, a page listing rooms
      A and B, and a mail server that accepts: one new listing is reported
      (room B), its mail is sent, and the snapshot then holds both rooms. */
  lemma NewRoomRun(deliver: string -> bool)
    requires forall body :: deliver(body)
    ensures
      var roomA := Listing("Room A", SiteOrigin + "/wohnen/a");
      var roomB := Listing("Room B", SiteOrigin + "/wohnen/b");
      var anchors := [Anchor("Room A", Some("/wohnen/a")), Anchor("Room B", Some("/wohnen/b"))];
      Step(Stored([roomA]), anchors, deliver)
        == RunResult(Stored([roomA, roomB]), Some(Body([roomB])), Notified(1))
  {
    var roomA := Listing("Room A", SiteOrigin + "/wohnen/a");
    var roomB := Listing("Room B", SiteOrigin + "/wohnen/b");
    TwoRoomsParse();
    assert roomA.url[|SiteOrigin| + 8] == 'a' && roomB.url[|SiteOrigin| + 8] == 'b';
    assert [roomA, roomB][..1] == [roomA] && [roomA][..0] == [];
    assert UrlSet([roomA]) == {roomA.url};
    assert Unseen([roomA], {roomA.url}) == [];
    assert DetectNew([roomA], [roomA, roomB]) == [roomB];
  }
}
