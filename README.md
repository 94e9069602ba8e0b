# Housing offer checker — a Dafny model

`scripts/check-housing.py` scrapes the Studentenwerk Dortmund housing page and
diffs the offers on it against the snapshot saved by the last run that sent an
email (none on the first run). When
there are new offers it sends one email listing all of them, and then it
overwrites the snapshot. This project
models the logic that sits under the I/O:

- `Housing` (housing.dfy): a listing `{title, url}` and the set of its URLs.
  It also holds URL uniqueness and "subsequence at increasing positions".
- `Parser` (parser.dfy): `parse_listings`. It takes the anchors the CSS
  selector matched, given as `(text, href option)` pairs. It skips anchors with
  an empty title or a missing or empty href. It builds each URL by plain string
  concatenation of `https://www.stwdo.de` and the href. It then deduplicates by
  URL the way a Python dict does. The method `ParseListings` keeps the source's
  two loops, and the dict appears as its key order plus a map. The function
  `Parse`, which is `Dedup` after `Kept`, is the specification.
- `Differ` (differ.dfy): `detect_new`. It keeps the listings of the current
  page whose URL is not in the snapshot's URL set, in page order.
- `Notifier` (notifier.dfy): the plain-text body built by `send_email`. This is
  the header line plus one `- title\n  url\n` block per listing, joined with
  `"\n"`. The method `ComposeBody` keeps the loop that appends lines.
- `Run` (run.dfy): `load_snapshot`, `save_snapshot` and `main`.
  - The snapshot file is a class `SnapshotStore` with one field. The file is
    either `Missing` or `Stored(listings)`.
  - `RunOnce` is `main`. It parses, loads, diffs, and when something is new it
    composes the body, hands it to the mailer, and only after a successful send
    saves the current listings.
  - The function `LoadSnapshot` is `load_snapshot` on the file's value: a
    missing file reads as no listings. `SnapshotStore.Load` is proved to
    return it.
  - The function `Step` is the same run as a transition of the snapshot file.
  - The mail server is a parameter, `deliver: string -> bool`. It tells whether
    sending a given body succeeds.
  - A failed send is the outcome `DeliveryFailed`. In the source this is the
    exception that ends the process with a non-zero exit.

Three details of the code shape the model:

- The URL is built by string concatenation, not a URL join, so an absolute
  href gives a doubled origin.
- On duplicate URLs the dict keeps each URL's first position and its last
  record.
- Python truthiness also skips an empty href, not only a missing one.

## Model

| member | source | states |
|---|---|---|
| Parser.ParseListings | scripts/check-housing.py:28-46 | the two loops return exactly `Parse(anchors)`: the usable anchors turned into listings, then deduplicated as a dict keyed by URL |
| Parser.KeptExactly | scripts/check-housing.py:32-42 | a listing is collected if and only if some anchor with a non-empty title and a non-empty href produced it, with URL `https://www.stwdo.de` + href |
| Parser.KeptIsSubseq | scripts/check-housing.py:32-42 | the collected listings are the anchors' listings taken at increasing positions, so page order and repeats are kept |
| Parser.UsablePositionsExact | scripts/check-housing.py:36-37 | a page position is collected if and only if its anchor has a non-empty title and a non-empty href |
| Parser.FirstUrls | scripts/check-housing.py:45 | the dict's key order holds exactly the URLs of the input, each once |
| Parser.DictInsert | scripts/check-housing.py:45 | storing a record under its URL adds a new key at the end; an existing key keeps its place and gets the new record |
| Parser.DictValues | scripts/check-housing.py:46 | the dict's values in key order are `Dedup` of the collected listings |
| Parser.DedupElements | scripts/check-housing.py:45-46 | every returned record is one of the collected records |
| Parser.DedupUrls | scripts/check-housing.py:45-46 | the returned URLs are pairwise distinct, and their set is the set of collected URLs |
| Parser.DedupLastWins | scripts/check-housing.py:45-46 | each returned record is the last collected record with its URL |
| Parser.FirstUrlsOrder | scripts/check-housing.py:45 | the key order follows the first occurrence of each URL |
| Parser.DedupFirstOrder | scripts/check-housing.py:45-46 | the returned records are ordered by the first occurrence of their URLs |
| Parser.FirstUrlsOfDistinct | scripts/check-housing.py:45 | without repeated URLs the key order is every URL in turn |
| Parser.DedupOfDistinct | scripts/check-housing.py:45-46 | deduplicating a sequence whose URLs are already distinct returns it unchanged |
| Parser.DedupIdempotent | scripts/check-housing.py:45-46 | deduplicating twice gives the same as deduplicating once |
| Parser.ParseProperties | scripts/check-housing.py:28-46 | every parsed listing comes from a usable anchor with the concatenated URL; parsed URLs are distinct; no collected URL is lost |
| Differ.Unseen | scripts/check-housing.py:64 | the result is no longer than the input and holds exactly the listings whose URL is not in the seen set |
| Differ.DetectNew | scripts/check-housing.py:62-64 | a listing is reported if and only if it is on the current page and its URL is not in the previous snapshot |
| Differ.UnseenIsSubseq | scripts/check-housing.py:64 | the kept listings are the input taken at increasing positions |
| Differ.UnseenPositionsExact | scripts/check-housing.py:64 | a position is kept if and only if its URL was not seen |
| Differ.DetectNewIsExactSubsequence | scripts/check-housing.py:62-64 | the result is the subsequence of the current listings at exactly the positions whose URL is absent from the previous snapshot |
| Differ.UnseenNothingSeen | scripts/check-housing.py:64 | with no URL seen, every listing is kept |
| Differ.DetectNewFromEmpty | scripts/check-housing.py:62-64 | against an empty snapshot the whole current sequence is new |
| Differ.UnseenAllSeen | scripts/check-housing.py:64 | when every URL was seen, nothing is kept |
| Differ.DetectNewSelf | scripts/check-housing.py:62-64 | a sequence compared with itself yields nothing new |
| Differ.DetectNewDistinct | scripts/check-housing.py:62-64 | if the current URLs are distinct, so are the reported ones |
| Differ.NewRoomScenario | scripts/check-housing.py:62-64 | a snapshot with room A against a page with rooms A and B reports exactly room B |
| Notifier.ComposeBody | scripts/check-housing.py:73-80 | the loop over the new listings produces exactly `Body(newListings)`, the header and one block per listing joined with newlines |
| Notifier.JoinSnoc | scripts/check-housing.py:80 | joining one more part appends the separator and that part |
| Notifier.BodyOfNone | scripts/check-housing.py:73-75 | with no listings the body is the header `New housing offer(s) detected:\n` alone |
| Notifier.BodySnoc | scripts/check-housing.py:77-80 | one more listing appends a newline and its block `- title\n  url\n` |
| Notifier.BodyPrefixes | scripts/check-housing.py:77-80 | the body for the first j listings is a prefix of the body for the first k listings, whenever j <= k |
| Notifier.BodyStartsWithHeader | scripts/check-housing.py:73-80 | every body starts with the header line |
| Notifier.BodyBlockInOrder | scripts/check-housing.py:77-80 | the block of listing i follows the body of the listings before it, after one newline, in listing order |
| Run.SnapshotStore.Load | scripts/check-housing.py:49-54 | a missing snapshot reads as empty; a stored one reads as its listings |
| Run.SnapshotStore.Save | scripts/check-housing.py:57-59 | saving overwrites the snapshot with exactly the given listings |
| Run.RunOnce | scripts/check-housing.py:89-101 | one run of `main` leaves the snapshot, the mail handed to the server and the outcome exactly as `Step` describes |
| Run.StepCases | scripts/check-housing.py:94-101 | a mail is sent exactly when something is new, and its body describes the new listings; with nothing new, or after a failed send, the snapshot is kept; after a successful send the snapshot is the current listings and the reported count is the number of new listings |
| Run.SaveOnlyAfterSend | scripts/check-housing.py:96-98 | the snapshot changes only if a mail was sent and accepted |
| Run.StepKeepsSnapshotWellFormed | scripts/check-housing.py:91-98 | a snapshot with distinct URLs still has distinct URLs after a run |
| Run.RunFromMissing | scripts/check-housing.py:49-51 | with no snapshot every parsed listing is new; a non-empty page sends them all, and a success saves them |
| Run.RerunAfterNotifyIsQuiet | scripts/check-housing.py:94-98 | after a successful run, the same page finds nothing new, sends nothing and keeps the snapshot |
| Run.RerunAfterQuietIsQuiet | scripts/check-housing.py:96-101 | after a run that found nothing new, the same page again finds nothing |
| Run.RetryAfterFailure | scripts/check-housing.py:96-98 | a failed send leaves the snapshot as it was, so the next run on the same page sends the same mail again |
| Run.TwoRoomsParse | scripts/check-housing.py:28-46 | anchors for rooms A and B parse to the two listings with concatenated URLs |
| Run.NewRoomRun | scripts/check-housing.py:89-99 | with room A saved, a page with rooms A and B and an accepting server: one new listing is reported, the mail describes room B, and the snapshot becomes both rooms |

## Left out

- `fetch_page` (lines 22-25) is network I/O. The page's content is the input
  sequence of anchors, and a failed fetch is not modelled.
- BeautifulSoup with lxml, the selector `a[href*='/wohnen/']` and
  `get_text(strip=True)` (lines 29, 32-34) are library behaviour. Their output
  is the `Anchor` sequence.
- JSON reading and writing (lines 53-54, 58-59) is file I/O and encoding. Only
  two rules are kept: a missing file reads as empty, and saving overwrites.
  The exception `json.load` raises on a corrupt file is not modelled.
- The MIME message, its subject line, the SMTP connection, STARTTLS and login
  (lines 68-71, 80-85) are network and library calls. So is the
  environment-variable configuration (lines 16-18). The send is modelled only
  by whether the server accepts the body.
- The printed status lines (lines 99, 101) are console output. Only the count
  is kept, in `Notified(count)`, and it equals the number of new listings.
- Python's dict is modelled as a key sequence and a map. Its hashing and
  memory layout are not modelled.
