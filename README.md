# GSES notice board to Slack: a verified model of the scraper's core

`fetch_announcements.py` runs one pass. It reads the notice board of
`https://gses.snu.ac.kr`, builds records from the first ten links of the page,
drops the records whose key is already in `processed_announcements.json`, and
posts each remaining record to a Slack webhook. It then writes the processed
keys back to the file. This project models that pass in Dafny and proves what
it guarantees.

- `common.dfy`, module `Common`: `Option`, prefix and suffix tests on strings,
  and `Positions`, the indices a filter keeps, used to state order
  preservation.
- `extraction.dfy`, module `Extraction`: turns links into records. This is
  `fetch_announcements`. `Normalize` resolves an href against the origin.
  `Meaningful` is the title filter (more than five characters). `Record`
  builds a record with key `digest(title + url)`. `Extracted` is the
  functional specification of the link loop. `FetchAnnouncements` is the
  loop itself, proved equal to it.
- `store.dfy`, module `StateStore`: the processed-keys file. `Load` falls
  back to the empty set when the file is missing or unreadable. `Save`
  writes the set as a list.
- `delivery.dfy`, module `Delivery`: `Diff` is the comprehension that keeps
  unprocessed records. `DeliverAll` is the send loop. It adds a key only
  after a successful send.
- `runner.dfy`, module `Runner`: `main`. `ExpectedRun` specifies one run as
  a value: its `RunResult` and its trace of `Event`s (`Fetched`, `Loaded`,
  `Sent`, `Saved`). `Run` is the imperative version, proved equal to it.
  Lemmas state the early exits and the single save at the end. Others state
  that no record whose key was in the loaded set is sent. A run whose sends
  all succeed leaves a next run over the same page nothing new. A failed
  send is retried by a next run over the same page, unless a successful
  send in the same run shares its key. Both retry lemmas take the same page
  for both runs. A notice that has left the first ten links of the page is
  never examined again, so its failed send is never retried.

Collaborators become inputs:
- The parsed page is `Option<seq<Link>>`. `None` is a request that raised
  `RequestException`.
- MD5 is the parameter `digest: string -> string`, applied to title
  followed by url.
- The Slack POST is the oracle `delivered: nat -> bool`. Entry `i` is the
  outcome of the i-th send of the run.
- The state file is `StateFile`: `Absent`, `Corrupt`, or `Stored(keys)`.
- The environment variable is `Option<string>`.

The script assigns no numeric identifiers to notices and does not sort them.
It has no cap of 20 records, no first-run baseline, no run modes and no
`initialized` flag. It sends one Slack message per record. In particular:
- at most 10 links are examined;
- titles must be longer than 5 characters;
- the key is a digest of title and url;
- records are sent one message at a time;
- the key set is saved after the loop even when every send failed.

## Model

| member | source | states |
|---|---|---|
| `Extraction.Normalize` | fetch_announcements.py:51-56 | An empty href stays empty. An href starting with `http` is unchanged. Any other href yields a url that starts with `https://gses.snu.ac.kr/` and ends with the href. Its length adds no extra character for a root-relative href and one `/` otherwise. |
| `Extraction.NormalizeIdempotent` | fetch_announcements.py:51-56 | Every non-empty href normalises to a url starting with `http`. Normalising a second time changes nothing. |
| `Extraction.RecordSpellings` | fetch_announcements.py:51-63 | A relative path `p`, the same path written `/p` and the absolute url `https://gses.snu.ac.kr/p` give the same record, and so the same key. |
| `Extraction.Window` | fetch_announcements.py:47 | `links[:10]`: a prefix of the links, of length min(10, number of links). |
| `Extraction.Extracted` | fetch_announcements.py:47-63 | The link loop yields no more records than it examines links. |
| `Extraction.ExtractedRecords` | fetch_announcements.py:48-63 | Every extracted record has a title longer than 5 characters. Its url is the normalised href of one of the links. Its key is `digest(title + url)`. |
| `Extraction.ExtractedEmbedding` | fetch_announcements.py:47-63 | The records are exactly those of the kept links, in link order: the j-th record comes from the j-th link whose text is longer than 5 characters. |
| `Extraction.Scraped` | fetch_announcements.py:25-69 | A failed request yields no records. At most 10 records come back. |
| `Extraction.FetchAnnouncements` | fetch_announcements.py:25-69 | The loop returns `Extracted` of the first ten links, so at most 10 records. A failed request returns no records. |
| `StateStore.Load` | fetch_announcements.py:72-81 | A stored list loads as the set of its keys. A missing or unreadable file loads as the empty set. |
| `StateStore.Enumerate` | fetch_announcements.py:88 | `list(hashes)`: the list has exactly the keys of the set, each once, with no two entries equal. |
| `StateStore.Save` | fetch_announcements.py:84-88 | Saving writes a list holding exactly the keys of the set, as many entries as the set has keys. |
| `StateStore.LoadSave` | fetch_announcements.py:72-88 | Loading what was saved gives back the saved set. |
| `Delivery.Diff` | fetch_announcements.py:147-150 | The new records are no more than the extracted ones. |
| `Delivery.DiffMembers` | fetch_announcements.py:147-150 | A record is new exactly when it was extracted and its key is not processed. |
| `Delivery.DiffEmbedding` | fetch_announcements.py:147-150 | The new records are, in order, exactly the extracted records whose key is not processed. |
| `Delivery.DiffKeepsMultiplicity` | fetch_announcements.py:147-150 | An unprocessed record occurs among the new records as often as among the extracted ones. A processed one never occurs. Duplicates are not collapsed. |
| `Delivery.DiffEmptyIffSettled` | fetch_announcements.py:147-154 | Nothing is new exactly when every extracted key is processed. |
| `Delivery.DiffIdempotent` | fetch_announcements.py:147-150 | Filtering the new records again against the same set changes nothing. |
| `Delivery.SentKeys` | fetch_announcements.py:157-159 | The key of every successfully sent record is added. |
| `Delivery.SentKeysExact` | fetch_announcements.py:157-159 | Every added key belongs to some successfully sent record. A failed record's key stays out exactly when no successful record shares it. |
| `Delivery.AllDeliveredSettles` | fetch_announcements.py:147-159 | When every send of the new records succeeds, filtering the same records against the loaded set plus the sent keys leaves nothing new. |
| `Delivery.DeliverAll` | fetch_announcements.py:157-159 | After the loop, the set is the old set plus the keys of the successful sends. Every record is sent once, in order. |
| `Runner.ExpectedRun` | fetch_announcements.py:128-163 | A run ends with `MissingWebhook` exactly when the webhook is missing. Its trace has at most 10 sends plus 3 events. A `Processed` run has a non-empty batch and a trace of one send per batch record plus fetch, load and save. |
| `Runner.Run` | fetch_announcements.py:128-163 | `main` ends as `ExpectedRun` prescribes: same result, same sends, same save. |
| `Runner.EarlyExits` | fetch_announcements.py:130-154 | With no webhook (unset or empty), nothing happens. A run sends and saves exactly when the webhook is set and some record is new. Otherwise it only fetches and loads. |
| `Runner.SavedOnceAtEnd` | fetch_announcements.py:157-162 | When a batch is attempted, the save is the last event and happens once, whatever the send outcomes. The saved set contains the loaded set. It adds only keys of successful sends. |
| `Runner.NoResend` | fetch_announcements.py:147-159 | No record whose key was in the loaded set is sent. |
| `Runner.SendsEveryNew` | fetch_announcements.py:147-159 | With a webhook, every extracted record with an unprocessed key is sent, with the outcome of its own send. |
| `Runner.RerunAfterFullDelivery` | fetch_announcements.py:144-162 | When every send succeeds, the next run over the same page loads the saved file and ends with nothing new. |
| `Runner.FailedSendRetried` | fetch_announcements.py:157-162 | A record whose send failed is pending again in the next run over the same page, unless a successful send shares its key. |

## Left out

- The HTTP request (`requests.get`, headers, timeout, `raise_for_status`, encoding) is network I/O. The page is an input. A `RequestException` is `None` and yields no records. Any other exception escapes the script and is not modelled.
- BeautifulSoup parsing, `find_all('a', href=True)` and `get_text(strip=True)` belong to a foreign library. Their output is the input `seq<Link>` of already stripped `(text, href)` pairs.
- MD5 hashing is a foreign cryptographic call. It is the `digest` parameter, so no property relies on it being collision-free.
- Reading and writing `processed_announcements.json` is file I/O. The file is the `StateFile` value. The order in which `list(hashes)` lists a set is not modelled. A write that raises an exception (which the source does not catch) is not modelled.
- `send_to_slack`: the JSON payload and the POST are network I/O around a fixed literal. Only the boolean result is modelled, by the `delivered` oracle.
- `print` messages, and reading `SLACK_WEBHOOK_URL` beyond "set and non-empty", are console and OS plumbing. They are not modelled.
