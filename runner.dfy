/** One execution of the script (`main` in fetch_announcements.py): check the
    webhook, fetch, load the processed keys, diff, send, save. The
    environment variable, the page, the state file and the outcome of each
    Slack POST are inputs; what the run does is its result and its trace of
    events. */
module Runner {
  import opened Common
  import opened Extraction
  import opened StateStore
  import opened Delivery

  /** How a run ends. */
  datatype RunResult =
    | MissingWebhook                                              // SLACK_WEBHOOK_URL unset or empty
    | NothingFetched                                              // no records came back from the page
    | NothingNew                                                  // every record was already processed
    | Processed(batch: seq<Announcement>, processed: set<string>) // sends attempted, this set saved

  /** A finished run: how it ended and what it did, in order. */
  datatype RunRecord = RunRecord(result: RunResult, trace: seq<Event>)

  /** `if not webhook_url`: an unset and an empty variable both stop the run. */
  predicate HasWebhook(webhook: Option<string>) {
    webhook.Some? && webhook.value != ""
  }

  /** The batch a run sends: the scraped records whose key is not loaded. */
  function Pending(page: Option<seq<Link>>, digest: string -> string, file: StateFile): seq<Announcement> {
    Diff(Scraped(page, digest), Load(file))
  }

  /** What one run does, as a value: stop without a webhook, stop when the
      page gave no records, stop when none is new; otherwise send every
      pending record in order and save the loaded set plus the keys whose
      send succeeded, whatever the outcomes were. */
  function ExpectedRun(webhook: Option<string>, page: Option<seq<Link>>, digest: string -> string,
                       file: StateFile, delivered: nat -> bool): (run: RunRecord)
    ensures run.result.MissingWebhook? <==> !HasWebhook(webhook)
    ensures |run.trace| <= LinkLimit + 3
    ensures run.result.Processed? ==> run.result.batch != [] && |run.trace| == |run.result.batch| + 3
  {
    if !HasWebhook(webhook) then RunRecord(MissingWebhook, [])
    else if Scraped(page, digest) == [] then RunRecord(NothingFetched, [Fetched])
    else
      var batch := Pending(page, digest, file);
      if batch == [] then RunRecord(NothingNew, [Fetched, Loaded])
      else
        var updated := Load(file) + SentKeys(batch, delivered);
        RunRecord(Processed(batch, updated), [Fetched, Loaded] + Attempts(batch, delivered) + [Saved(updated)])
  }

  /** `main`: the same steps, calling the extraction method and the send loop. */
  method Run(webhook: Option<string>, page: Option<seq<Link>>, digest: string -> string,
             file: StateFile, delivered: nat -> bool)
    returns (result: RunResult, trace: seq<Event>)
    ensures RunRecord(result, trace) == ExpectedRun(webhook, page, digest, file, delivered)
  {
    if !HasWebhook(webhook) {
      return MissingWebhook, [];
    }
    var anns := FetchAnnouncements(page, digest);
    trace := [Fetched];
    if anns == [] {
      return NothingFetched, trace;
    }
    var processed := Load(file);
    trace := trace + [Loaded];
    var batch := Diff(anns, processed);
    if batch == [] {
      return NothingNew, trace;
    }
    var updated, sends := DeliverAll(batch, processed, delivered);
    trace := trace + sends + [Saved(updated)];
    result := Processed(batch, updated);
  }

  /** The early exits: without a webhook nothing happens at all; when the
      page gave nothing, or nothing is new, nothing is sent and nothing is
      saved. */
  lemma EarlyExits(webhook: Option<string>, page: Option<seq<Link>>, digest: string -> string,
                   file: StateFile, delivered: nat -> bool)
    ensures var run := ExpectedRun(webhook, page, digest, file, delivered);
            (!HasWebhook(webhook) <==> run.trace == []) &&
            (!run.result.Processed? <==> forall k :: 0 <= k < |run.trace| ==> run.trace[k] in {Fetched, Loaded}) &&
            (run.result.Processed? <==> HasWebhook(webhook) && Pending(page, digest, file) != [])
  {
    var run := ExpectedRun(webhook, page, digest, file, delivered);
    if HasWebhook(webhook) && Pending(page, digest, file) != [] {
      assert |Pending(page, digest, file)| <= |Scraped(page, digest)|;
      assert run.trace[|run.trace| - 1] !in {Fetched, Loaded};
    }
  }

  /** The save happens exactly once, as the last step, whenever a batch was
      attempted, whatever the send outcomes; it saves the loaded set plus the
      keys of the successful sends, so the processed set only grows. */
  lemma SavedOnceAtEnd(webhook: Option<string>, page: Option<seq<Link>>, digest: string -> string,
                       file: StateFile, delivered: nat -> bool)
    ensures var run := ExpectedRun(webhook, page, digest, file, delivered);
            run.result.Processed? ==>
              run.trace[|run.trace| - 1] == Saved(run.result.processed) &&
              (forall k :: 0 <= k < |run.trace| - 1 ==> !run.trace[k].Saved?) &&
              Load(file) <= run.result.processed &&
              run.result.processed - Load(file) <= SentKeys(run.result.batch, delivered)
  {
  }

  /** A run never sends a record whose key was already processed. */
  lemma NoResend(webhook: Option<string>, page: Option<seq<Link>>, digest: string -> string,
                 file: StateFile, delivered: nat -> bool)
    ensures var run := ExpectedRun(webhook, page, digest, file, delivered);
            forall k :: 0 <= k < |run.trace| && run.trace[k].Sent? ==>
              run.trace[k].announcement.key !in Load(file)
  {
    var run := ExpectedRun(webhook, page, digest, file, delivered);
    if run.result.Processed? {
      var batch := Pending(page, digest, file);
      var attempts := Attempts(batch, delivered);
      DiffMembers(Scraped(page, digest), Load(file));
      assert run.trace == [Fetched, Loaded] + attempts + [Saved(run.result.processed)];
      forall k | 0 <= k < |run.trace| && run.trace[k].Sent?
        ensures run.trace[k].announcement.key !in Load(file)
      {
        assert run.trace[k] == attempts[k - 2];
        assert batch[k - 2] in batch;
      }
    }
  }

  /** With a webhook, a run sends every scraped record whose key was not
      processed, with the outcome of its own send. */
  lemma SendsEveryNew(webhook: Option<string>, page: Option<seq<Link>>, digest: string -> string,
                      file: StateFile, delivered: nat -> bool)
    requires HasWebhook(webhook)
    ensures var run := ExpectedRun(webhook, page, digest, file, delivered);
            forall a :: a in Scraped(page, digest) && a.key !in Load(file) ==>
              exists k :: 2 <= k < |run.trace| && run.trace[k] == Sent(a, delivered(k - 2))
  {
    var run := ExpectedRun(webhook, page, digest, file, delivered);
    var anns, batch := Scraped(page, digest), Pending(page, digest, file);
    DiffMembers(anns, Load(file));
    if run.result.Processed? {
      var attempts := Attempts(batch, delivered);
      assert run.trace == [Fetched, Loaded] + attempts + [Saved(run.result.processed)];
      forall a | a in anns && a.key !in Load(file)
        ensures exists k :: 2 <= k < |run.trace| && run.trace[k] == Sent(a, delivered(k - 2))
      {
        var i :| 0 <= i < |batch| && batch[i] == a;
        assert run.trace[i + 2] == attempts[i];
      }
    }
  }

  /** When every send of a run succeeds, the next run over the same page,
      loading what this run saved, finds nothing new and saves nothing. */
  lemma RerunAfterFullDelivery(webhook: Option<string>, page: Option<seq<Link>>, digest: string -> string,
                               file: StateFile, delivered: nat -> bool, later: nat -> bool)
    requires HasWebhook(webhook) && Pending(page, digest, file) != []
    requires forall i :: 0 <= i < |Pending(page, digest, file)| ==> delivered(i)
    ensures var first := ExpectedRun(webhook, page, digest, file, delivered);
            ExpectedRun(webhook, page, digest, Save(first.result.processed), later).result == NothingNew
  {
    var anns, batch := Scraped(page, digest), Pending(page, digest, file);
    var saved := Load(file) + SentKeys(batch, delivered);
    assert ExpectedRun(webhook, page, digest, file, delivered).result.processed == saved;
    AllDeliveredSettles(anns, Load(file), delivered);
    LoadSave(saved);
    assert Pending(page, digest, Save(saved)) == [];
  }

  /** A record whose send failed, and whose key no successful send shares,
      is pending again in the next run over the same page. */
  lemma FailedSendRetried(webhook: Option<string>, page: Option<seq<Link>>, digest: string -> string,
                          file: StateFile, delivered: nat -> bool, i: nat)
    requires HasWebhook(webhook)
    requires i < |Pending(page, digest, file)| && !delivered(i)
    requires forall j :: 0 <= j < |Pending(page, digest, file)| && delivered(j) ==>
               Pending(page, digest, file)[j].key != Pending(page, digest, file)[i].key
    ensures var first := ExpectedRun(webhook, page, digest, file, delivered);
            Pending(page, digest, file)[i] in Pending(page, digest, Save(first.result.processed))
  {
    var batch := Pending(page, digest, file);
    var saved := Load(file) + SentKeys(batch, delivered);
    LoadSave(saved);
    SentKeysExact(batch, delivered);
    DiffMembers(Scraped(page, digest), Load(file));
    DiffMembers(Scraped(page, digest), saved);
    assert batch[i] in batch;
  }
}
