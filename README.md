# Torrent policy watchdog — Dafny model

A model of the scan that the Deluge watchdog script runs once a minute
(`check_and_remove_torrents` in `block.py`). The daemon's status reply is a
sequence of torrents, each with an id, a display name, its file paths and the
per-file priorities. For each torrent whose name is not yet in the evaluation
cache, the script records the name in the cache. It then walks the files and
priorities pairwise. A selected file (priority above 0) whose path ends with an
"unwanted" rule is deselected (priority 0). The walk stops at the first file
whose path ends with a "forbidden" rule. The script then makes one daemon call:
it removes the torrent together with its data, or it sets the rewritten
priority list. A torrent with no files gets no call, but its name is cached
all the same.

Modules:

- `Matcher` (`matcher.dfy`): suffix matching of a file name against a rule list.
- `Classifier` (`classifier.dfy`): the torrent and decision datatypes, the
  specification function `Decide`, and the method `ClassifyTorrent`, which runs
  the file/priority loop as the script does and is proved equal to `Decide`.
- `Watchdog` (`watchdog.dfy`): the daemon calls as `Action` values, the batch
  semantics `Run` over an evaluation-cache state, and the class `Service`. The
  class holds the cache as a field that lives as long as the process, and its
  `ProcessBatch` method loops over one reply and is proved equal to `Run`.

The rule lists are `seq<string>`, as produced by splitting the configured
comma-separated lists. An empty-string rule, which a trailing comma yields,
matches every name.

The walk follows Python's `zip`. Only the first min(|files|, |priorities|)
pairs are looked at, both for deselection and for the forbidden check. A
torrent that has files but a shorter priority list therefore gets a shorter
(possibly empty) priority list set. It is not removed when its forbidden file
lies beyond the walked pairs.

The script has no reconnection, health checks, shutdown handling or per-call
error isolation, and neither does the model.

## Model

| member | source | states |
|---|---|---|
| `Matcher.Matches` | block.py:62 | a name matches a rule list iff some rule of the list is a suffix of it (exact, case-sensitive) |
| `Matcher.EndsWith` | block.py:62 | `str.endswith`: the suffix is no longer than the name and the name is its own head followed by the suffix |
| `Matcher.EndsWithIffConcat` | block.py:70 | "ends with rule" means the name is some prefix followed by the rule |
| `Matcher.NoRulesMatchNothing` | block.py:62 | an empty rule list matches no name |
| `Matcher.EmptyRuleMatchesEverything` | block.py:19-20 | a list holding the empty rule, which a trailing comma in the configuration yields, matches every name |
| `Matcher.MatchesDependsOnRuleSet` | block.py:70 | only which rules are listed matters, not their order or repetitions |
| `Matcher.MatchIsCaseSensitive` | block.py:62 | ".MKV" does not match the rule ".mkv"; ".mkv" does |
| `Matcher.RuleIsLiteralSuffix` | block.py:70 | a rule is a literal tail, not an extension: "nfo" matches "a.info", ".nfo" does not match "nfo.txt" |
| `Classifier.Adjusted` | block.py:59 | the rewritten priority list has one entry per walked pair, min(\|files\|, \|priorities\|) |
| `Classifier.NewPriority` | block.py:61-68 | one file's new priority is 0 or its old value, never above it, and the old value whenever it is at or below 0 or the file matches no unwanted rule |
| `Classifier.FirstMatch` | block.py:70-74 | the reported index is a matching file with no matching file before it; none is reported only when no file matches |
| `Classifier.Decide` | block.py:48-91 | defines the decision for one torrent; no decision exactly when it lists no files, a removal only for a walked file with a forbidden suffix, an adjustment with one entry per walked pair |
| `Classifier.ClassifyTorrent` | block.py:48-74 | the file/priority loop with its early break yields exactly the decision `Decide` specifies |
| `Classifier.AdjustedAt` | block.py:59-68 | entry i is 0 when priority i is above 0 and file i matches an unwanted rule, and priority i otherwise |
| `Classifier.AdjustedNeverIncreases` | block.py:61-68 | the rewrite never raises a priority, copies entries at or below 0, and sets each entry to 0 or its old value |
| `Classifier.AdjustedIdempotent` | block.py:61-68 | rewriting the rewritten list against the same files gives the same list |
| `Classifier.NoFilesNoAction` | block.py:48-53 | a torrent without files gets no decision, whatever its priorities and the rules |
| `Classifier.RemoveIffForbidden` | block.py:70-85 | removal is decided iff some walked file matches a forbidden rule, and the reported file is the first such file |
| `Classifier.ForbiddenBeatsUnwanted` | block.py:59-76 | a file matching both lists causes removal, never an adjustment |
| `Classifier.LaterFilesIgnored` | block.py:70-74 | after the first forbidden file nothing later is looked at: torrents agreeing up to it get the same decision |
| `Classifier.AdjustWhenNoForbidden` | block.py:56-91 | without a forbidden file the decision is the rewritten list, entry by entry as in `AdjustedAt` |
| `Watchdog.Service.constructor` | block.py:26 | the process starts with an empty evaluation cache |
| `Watchdog.Service.ProcessBatch` | block.py:35-91 | the new cache and the calls made equal the batch semantics `Run` from the old cache; the cache keeps no duplicate names |
| `Watchdog.ActionsFor` | block.py:76-91 | the daemon calls for one decision: none for no decision, otherwise exactly one call carrying the torrent's id; a removal call always deletes the data |
| `Watchdog.Step` | block.py:40-91 | one torrent's handling: a cached name leaves the state as it is; a new name is appended to the cache, and at most one call, for that torrent's id, is appended |
| `Watchdog.Run` | block.py:35-91 | defines the batch, torrent by torrent in reply order; every call it adds carries the id of a torrent of the batch |
| `Watchdog.RunExtends` | block.py:26 | the cache and the list of calls only grow: the old ones are prefixes of the new |
| `Watchdog.RunCacheContents` | block.py:40-43 | after a batch the cache holds exactly the old names plus the batch's names |
| `Watchdog.RunKeepsNoDuplicates` | block.py:40-43 | each name is appended at most once |
| `Watchdog.RunActionsBounded` | block.py:40-91 | a batch makes at most one call per name it adds to the cache, and adds at most one name per torrent |
| `Watchdog.CachedTorrentSkipped` | block.py:40-41 | a torrent whose name is cached, from an earlier batch or earlier in this one, changes nothing |
| `Watchdog.CachedBatchIdle` | block.py:40-41 | a batch of cached names makes no call and leaves the cache unchanged |
| `Watchdog.RescanIdle` | block.py:96-99 | scanning the same reply again at the next tick makes no call |
| `Watchdog.NoFilesCachedWithoutCall` | block.py:40-53 | a new torrent without files makes no call, yet its name is cached |
| `Watchdog.PendingMetadataNeverRechecked` | block.py:40-53 | a torrent first seen without files is never classified later, even once a forbidden file appears |
| `Watchdog.NewTorrentCall` | block.py:76-91 | a new torrent with a walked forbidden file gets exactly `remove(id, true)`; otherwise exactly `set priorities(id, rewritten list)` |
| `Watchdog.TwoNewTorrents` | block.py:35-91 | two new torrents with distinct names are both cached, and their calls are made in reply order |
| `Watchdog.ExampleRemoval` | block.py:70-74 | a torrent whose first file ends with ".exe" is removed, reporting that file, when ".exe" is forbidden |
| `Watchdog.ExampleAdjust` | block.py:61-68 | a selected ".nfo" file is set to 0 and a ".mkv" file keeps priority 4 when ".nfo" is unwanted |
| `Watchdog.TwoTorrentExample` | block.py:35-91 | one torrent with a forbidden file and one with an unwanted selected file give one removal and one priority update with that file at 0 |

## Left out

- Reading `/app/config.ini` and creating the RPC client (block.py:6-15): file and network set-up. The two rule lists are parameters.
- The Deluge RPC client (block.py:1, block.py:31-33, block.py:81-91): a foreign network library. The status reply is an input sequence. The remove and set-options calls are recorded as `Action` values in call order. Call failures are not modelled, because the script does not handle them.
- Byte decoding with `errors="ignore"` and the defaults for missing keys (block.py:37-39, block.py:44-45, block.py:60): names, ids and paths are already-decoded strings, and every torrent carries its three fields.
- `print` logging (block.py:22-24, block.py:46, block.py:50-52, block.py:63, block.py:77-79): output only. The forbidden file name that is logged is kept in the `Remove` decision.
- The endless `while 1` loop with `time.sleep(60)` and timestamps (block.py:96-99): scheduling and wall-clock time. Repeated batches are covered by `Run`, `RunAppend` and `RescanIdle`.
- Reconnection, health checks, shutdown signals and per-call error isolation: the script has none of them.
