/** Finding the new announcements and sending them one by one
    (`main` in fetch_announcements.py, the comprehension that keeps the
    unprocessed records and the loop around `send_to_slack`). The Slack POST
    is an oracle: `delivered(i)` is whether the i-th send of the run
    succeeded. */
module Delivery {
  import opened Common
  import opened Extraction

  /** An observable step of a run, in the order it happens. */
  datatype Event =
    | Fetched                                    // the board page was requested
    | Loaded                                     // the processed-keys file was read
    | Sent(announcement: Announcement, ok: bool) // one Slack message, and whether it went through
    | Saved(processed: set<string>)              // the processed-keys file was written with this set

  /** Whether a record has not been processed yet. */
  function Unprocessed(processed: set<string>): Announcement -> bool {
    (a: Announcement) => a.key !in processed
  }

  /** The records whose key is not in `processed`, in their original order. */
  function Diff(anns: seq<Announcement>, processed: set<string>): (news: seq<Announcement>)
    ensures |news| <= |anns|
  {
    if anns == [] then []
    else
      var last := anns[|anns| - 1];
      Diff(anns[..|anns| - 1], processed) + (if Unprocessed(processed)(last) then [last] else [])
  }

  /** A record is in the diff exactly when it is among the records and its
      key is not processed: no processed record is sent again, and no
      unprocessed one is missed. */
  lemma {:induction false} DiffMembers(anns: seq<Announcement>, processed: set<string>)
    ensures forall a :: a in Diff(anns, processed) <==> a in anns && a.key !in processed
  {
    if anns != [] {
      var init, last := anns[..|anns| - 1], anns[|anns| - 1];
      DiffMembers(init, processed);
      assert anns == init + [last];
      assert Diff(anns, processed) == Diff(init, processed) + (if last.key !in processed then [last] else []);
    }
  }

  /** The diff is exactly the unprocessed records, in order: its j-th
      element is the j-th record whose key was not processed. */
  lemma {:induction false} DiffEmbedding(anns: seq<Announcement>, processed: set<string>)
    ensures |Diff(anns, processed)| == |Positions(anns, Unprocessed(processed))|
    ensures forall j :: 0 <= j < |Diff(anns, processed)| ==>
              Diff(anns, processed)[j] == anns[Positions(anns, Unprocessed(processed))[j]]
  {
    if anns != [] {
      var init, last := anns[..|anns| - 1], anns[|anns| - 1];
      DiffEmbedding(init, processed);
      var d, di := Diff(anns, processed), Diff(init, processed);
      var p, pi := Positions(anns, Unprocessed(processed)), Positions(init, Unprocessed(processed));
      assert d == di + (if last.key !in processed then [last] else []);
      assert p == pi + (if last.key !in processed then [|anns| - 1] else []);
      forall j | 0 <= j < |d|
        ensures d[j] == anns[p[j]]
      {
        if j < |di| {
          assert d[j] == di[j] && p[j] == pi[j] && pi[j] < |init|;
          assert init[pi[j]] == anns[pi[j]];
        }
      }
    }
  }

  /** The diff drops processed records and nothing else: an unprocessed
      record occurs in the batch exactly as often as among the scraped
      records, so a link that appears twice in the window is sent twice. */
  lemma {:induction false} DiffKeepsMultiplicity(anns: seq<Announcement>, processed: set<string>, a: Announcement)
    ensures multiset(Diff(anns, processed))[a] == if a.key in processed then 0 else multiset(anns)[a]
  {
    if anns != [] {
      var init, last := anns[..|anns| - 1], anns[|anns| - 1];
      DiffKeepsMultiplicity(init, processed, a);
      var d := Diff(init, processed);
      assert anns == init + [last];
      assert multiset(anns) == multiset(init) + multiset{last};
      if last.key !in processed {
        assert Diff(anns, processed) == d + [last];
        assert multiset(d + [last]) == multiset(d) + multiset{last};
      }
    }
  }

  /** The diff is empty exactly when every record's key is processed. */
  lemma DiffEmptyIffSettled(anns: seq<Announcement>, processed: set<string>)
    ensures Diff(anns, processed) == [] <==> forall a :: a in anns ==> a.key in processed
  {
  }

  /** Diffing the diff again against the same set changes nothing. */
  lemma {:induction false} DiffIdempotent(anns: seq<Announcement>, processed: set<string>)
    ensures Diff(Diff(anns, processed), processed) == Diff(anns, processed)
  {
    if anns != [] {
      var init, last := anns[..|anns| - 1], anns[|anns| - 1];
      DiffIdempotent(init, processed);
      var d, di := Diff(anns, processed), Diff(init, processed);
      if last.key !in processed {
        assert d == di + [last];
        assert d[..|d| - 1] == di && d[|d| - 1] == last;
        assert Diff(d, processed) == Diff(di, processed) + [last];
      } else {
        assert d == di;
      }
    }
  }

  /** The keys of the records whose send succeeded. */
  function SentKeys(batch: seq<Announcement>, delivered: nat -> bool): (keys: set<string>)
    ensures forall i :: 0 <= i < |batch| && delivered(i) ==> batch[i].key in keys
  {
    set i | 0 <= i < |batch| && delivered(i) :: batch[i].key
  }

  /** Every key the send loop adds belongs to a successfully sent record,
      and a record whose send failed adds no key unless another record with
      the same key was sent successfully. */
  lemma SentKeysExact(batch: seq<Announcement>, delivered: nat -> bool)
    ensures forall k :: k in SentKeys(batch, delivered) ==>
              exists i :: 0 <= i < |batch| && delivered(i) && batch[i].key == k
    ensures forall i :: 0 <= i < |batch| && !delivered(i) ==>
              ((forall j :: 0 <= j < |batch| && delivered(j) ==> batch[j].key != batch[i].key) <==>
               batch[i].key !in SentKeys(batch, delivered))
  {
  }

  /** When every send succeeds, diffing the records again against the
      set with the sent keys added leaves nothing. */
  lemma AllDeliveredSettles(anns: seq<Announcement>, loaded: set<string>, delivered: nat -> bool)
    requires forall i :: 0 <= i < |Diff(anns, loaded)| ==> delivered(i)
    ensures Diff(anns, loaded + SentKeys(Diff(anns, loaded), delivered)) == []
  {
    var batch := Diff(anns, loaded);
    var saved := loaded + SentKeys(batch, delivered);
    DiffMembers(anns, loaded);
    forall a | a in anns
      ensures a.key in saved
    {
      if a.key !in loaded {
        var i :| 0 <= i < |batch| && batch[i] == a;
        assert delivered(i);
      }
    }
    DiffEmptyIffSettled(anns, saved);
  }

  /** The events of sending a batch in order, with the outcome of each send. */
  function Attempts(batch: seq<Announcement>, delivered: nat -> bool): seq<Event> {
    seq(|batch|, i requires 0 <= i < |batch| => Sent(batch[i], delivered(i)))
  }

  /** The loop of the source: send every new record in order, and add a
      record's key to the processed set only when its send succeeded. */
  method DeliverAll(batch: seq<Announcement>, processed: set<string>, delivered: nat -> bool)
    returns (updated: set<string>, sends: seq<Event>)
    ensures updated == processed + SentKeys(batch, delivered)
    ensures sends == Attempts(batch, delivered)
  {
    updated, sends := processed, [];
    for i := 0 to |batch|
      invariant updated == processed + SentKeys(batch[..i], delivered)
      invariant |sends| == i
      invariant forall j :: 0 <= j < i ==> sends[j] == Sent(batch[j], delivered(j))
    {
      var ok := delivered(i);
      sends := sends + [Sent(batch[i], ok)];
      if ok {
        updated := updated + {batch[i].key};
      }
      assert SentKeys(batch[..i + 1], delivered) ==
             SentKeys(batch[..i], delivered) + (if ok then {batch[i].key} else {});
    }
    assert batch[..|batch|] == batch;
  }
}
