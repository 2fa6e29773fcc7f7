# gmusic-playlist-scraper, modelled in Dafny

gmusic-playlist-scraper takes the albums of a Google Music playlist and looks
each (artist, album) pair up on a torrent index. It picks the best hit: one
whose title names both the artist and the album, with the most seeds, in
the wanted format. It then hands the hit on as a magnet link. The repository
holds two variants of the same pipeline, and this project models the core
of both.

- `torrent_scraper3.py` is the fully automatic variant. The entry points are:
  - `find_best_match`: the match selector;
  - `normalize`: ASCII folding, with an optional substitute for every
    non-alphanumeric character;
  - `artist_album_type`: the `"Artist - Album"` argument;
  - the playlist-to-album-set step of `get_gmusic_playlist`;
  - the `get_torrent_hashes` search loop.
- `scraper.py` is the interactive variant. The entry points are:
  - `get_best_match`: the selector, which removes `total_found` from the
    caller's dict and asks the operator when matching is inconclusive;
  - `suggest_alternative`: the numbered prompt that re-asks until the
    answer is valid;
  - `normalize`;
  - the album set of `get_albums_from_playlist`;
  - the `get_torrent_hashes` loop, which splits albums into found and not
    found and saves one `.magnet` file per found album;
  - the config.json / command-line merge at the start of `main`.

Modules:

- `Wrappers`: Option and Result.
- `Text`: the Python string operations the code relies on:
  - `lower`;
  - substring `in`;
  - `find`, `split` and `join`;
  - `encode('ascii', 'ignore')`.
- `Hits`: the search hit and the title filter, plus the following:
  - the stable descending sort by seeds;
  - a sort-free reference definition of the pick ("the earliest hit of the
    category with the most seeds");
  - the magnet link.
- `Playlists`: choosing a playlist by name and the set of (album artist,
  album) pairs it contains.
- `TorrentScraper`: torrent_scraper3.py.
- `Prompt`: the answer check of `suggest_alternative`.
- `Scraper`: scraper.py.
- `ScraperConfig`: the configuration merge and the required-keys check in
  `main` of scraper.py.

The outside world enters as parameters:

- Unicode NFKD decomposition is a function `nfkd: string -> string`.
- The torrent index is a function `search` from query text to parsed
  response.
- The operator's console is the sequence of answer lines they type. Running
  out of lines is the end of input: `input()` raises EOFError and the run
  stops.
- A JSON search response is a `Response`: the `total_found` text and the
  remaining entries as a sequence of hits, in the order the dict yields
  them.

What the code does that a reader might not expect:

- A format that is not an alias of lossless is compared exactly as given.
  The code does not lower-case it.
- The only "no results" test is `total_found == '0'`. A response with some
  other count and no hits reaches the exact-match step. There,
  torrent_scraper3.py reports no exact match, and scraper.py offers an empty
  list of alternatives.
- torrent_scraper3.py never asks the operator. Its two inconclusive cases
  fail at once.
- The seed test looks only at the top of the ranking. When some exact match
  has seeds, the pick is the best-seeded hit of the wanted format, even
  when that hit has no seeds. `TorrentScraper.FindBestMatchOutcome` and
  `Scraper.BestMatchAutomaticPick` state exactly this.
- torrent_scraper3.py folds `flac`, `ape` and `lossless` in any case to
  `lossless`. scraper.py folds only `flac` and `ape`, so there a spelling
  such as `LOSSLESS` is compared as given. `Scraper.AliasesDifferOnlyOnLosslessSpelling`
  proves that this is the only difference.
- torrent_scraper3.py matches the playlist name exactly; scraper.py ignores
  case.
- The `.replace(' ', '+')` in torrent_scraper3.py never changes anything,
  because `normalize(..., '%20')` has already replaced every space.
- In scraper.py, argparse gives `format` and `dir` defaults that are never
  None. So when config.json exists, its `format` and `dir` are always
  replaced by the command-line defaults (`ScraperConfig.DefaultsOverrideConfigFile`).

## Model

| member | source | states |
|---|---|---|
| Text.FindFrom | gmusic-playlist-scraper/torrent_scraper3.py:139 | the separator search behind `split`: the leftmost occurrence at or after the start, and None exactly when there is no occurrence |
| Text.SplitJoin | gmusic-playlist-scraper/torrent_scraper3.py:139 | joining the pieces of `s.split(' - ')` with the separator gives `s` back |
| Text.SplitPiecesAreFree | gmusic-playlist-scraper/torrent_scraper3.py:139 | no piece returned by `split` contains the separator |
| Text.Lower | gmusic-playlist-scraper/torrent_scraper3.py:69 | `.lower()` on ASCII letters; no contract of its own, characterised by Text.LowerAppend, Text.LowerIsIdentityOnLowercase and Scraper.SearchQuery |
| Text.LowerAppend | gmusic-playlist-scraper/scraper.py:60 | lower-casing distributes over concatenation, so lower-casing the joined pair equals joining the lower-cased parts |
| Text.LowerIsIdentityOnLowercase | gmusic-playlist-scraper/torrent_scraper3.py:80 | text without capital letters is unchanged by lower-casing |
| Text.Contains | gmusic-playlist-scraper/torrent_scraper3.py:69 | substring `in`: a predicate, the needle stands at some position of the text |
| Text.Split | gmusic-playlist-scraper/torrent_scraper3.py:139 | `s.split(sep)` gives at least one piece; it cuts at the leftmost occurrence that Text.FindFrom finds, and is characterised by Text.FindFrom, Text.SplitJoin and Text.SplitPiecesAreFree |
| Text.AsciiOnly | gmusic-playlist-scraper/scraper.py:51 | `encode('ascii', 'ignore')` gives an ASCII string no longer than its input, holding exactly the ASCII characters of the input, and leaves ASCII input unchanged |
| Text.AsciiOnlyChar | gmusic-playlist-scraper/scraper.py:51 | one character is kept iff it is ASCII |
| Text.AsciiOnlyAppend | gmusic-playlist-scraper/scraper.py:51 | the kept characters of a concatenation are those of each part, in order; with AsciiOnlyChar this fixes the result: every ASCII character, in order |
| Text.Fold | gmusic-playlist-scraper/scraper.py:50-51 | `normalize` gives ASCII made of exactly the ASCII characters of the decomposition, and the decomposition itself when that is already ASCII |
| Text.FoldPieces | gmusic-playlist-scraper/torrent_scraper3.py:18-20 | a decomposition made of pieces folds piece by piece, so the ASCII characters survive in order |
| Hits.KeepMatching | gmusic-playlist-scraper/torrent_scraper3.py:69 | a hit is kept iff it is in the response and its lower-cased title contains both needles; each kept hit keeps its multiplicity |
| Hits.KeepMatchingOne | gmusic-playlist-scraper/torrent_scraper3.py:69 | one hit is kept iff its title names both artist and album |
| Hits.KeepMatchingAppend | gmusic-playlist-scraper/scraper.py:111 | the filter of a concatenation is the concatenation of the filters, so the kept hits stay in response order |
| Hits.RankBySeeds | gmusic-playlist-scraper/torrent_scraper3.py:74 | `sorted(..., key=seeds, reverse=True)` is a permutation (same multiset and length) in non-increasing seed order |
| Hits.RankingIsStable | gmusic-playlist-scraper/scraper.py:117 | the sort is stable: hits with equal seed counts keep their input order |
| Hits.RankingExample | gmusic-playlist-scraper/torrent_scraper3.py:74 | seeds 3, 7, 0, 7 rank as 7, 7, 3, 0, with the two sevens in input order |
| Hits.MaxSeeds | gmusic-playlist-scraper/torrent_scraper3.py:75 | the largest seed count is held by some hit and bounds every hit |
| Hits.RankTopIsMax | gmusic-playlist-scraper/torrent_scraper3.py:74-75 | the first ranked hit has the largest seed count, so `results[0]['seeds'] == 0` means no exact match has more than zero seeds |
| Hits.FirstInCategory | gmusic-playlist-scraper/torrent_scraper3.py:82 | `next(..., None)` over the ranking returns the first hit of the category (no earlier hit has it), and None exactly when no hit has the category |
| Hits.BestInCategoryMeaning | gmusic-playlist-scraper/torrent_scraper3.py:74-82 | the reference pick has the category, has at least as many seeds as every hit of the category and strictly more than every earlier one; None iff the category is absent |
| Hits.BestInCategorySound | gmusic-playlist-scraper/scraper.py:117-125 | the reference pick is a hit of the category with seeds no fewer than any other hit of that category |
| Hits.RankedFirstIsBest | gmusic-playlist-scraper/torrent_scraper3.py:74-82 | taking the first hit of the category from the stable seed ranking gives exactly the reference pick |
| Hits.MagnetLink | gmusic-playlist-scraper/torrent_scraper3.py:117 | `'magnet:?xt=urn:btih:%s' % hash`; no contract of its own, characterised by Hits.MagnetRoundTrip |
| Hits.MagnetRoundTrip | gmusic-playlist-scraper/torrent_scraper3.py:117 | the hash can be read back from `'magnet:?xt=urn:btih:%s' % hash`, and only that link carries that hash |
| Playlists.FirstNamed | gmusic-playlist-scraper/scraper.py:38 | `next(...)` over playlists returns the first index whose name matches (exactly or ignoring case); None, the StopIteration, iff none matches |
| Playlists.AlbumKeysOf | gmusic-playlist-scraper/scraper.py:39-40 | the set comprehension over the playlist's entries; no contract of its own, characterised by Playlists.AlbumKeysMeaning |
| Playlists.AlbumKeysMeaning | gmusic-playlist-scraper/scraper.py:39-40 | the album set holds exactly the (albumArtist, album) pairs of the entries that have a track, and has no more elements than the playlist |
| TorrentScraper.SubstituteNonAlnum | gmusic-playlist-scraper/torrent_scraper3.py:18 | `re.sub(r'[^a-zA-Z0-9]', sub, t)`; no contract of its own, characterised by TorrentScraper.SubstituteChar and TorrentScraper.SubstituteAppend (for every `sub`, `'%20'` included), TorrentScraper.SubstituteOneForOne and TorrentScraper.SubstituteKeepsAlnum |
| TorrentScraper.Normalize | gmusic-playlist-scraper/torrent_scraper3.py:16-20 | `normalize(s, sub)`; no contract of its own, characterised by Text.Fold and Text.FoldPieces for the folding, TorrentScraper.SubstituteChar and TorrentScraper.SubstituteAppend for the substitution with any `sub` (the `'%20'` of line 41 included), TorrentScraper.NormalizeWithSpace and TorrentScraper.SearchStringHasNoPlus |
| TorrentScraper.SubstituteChar | gmusic-playlist-scraper/torrent_scraper3.py:18 | one character is kept when it is an ASCII letter or digit and becomes `sub` otherwise, for any `sub` |
| TorrentScraper.SubstituteAppend | gmusic-playlist-scraper/torrent_scraper3.py:18 | the substitution of a concatenation is the concatenation of the substitutions; with SubstituteChar this fixes the result for every `sub`: the letters and digits stay in order and each other character becomes `sub` |
| TorrentScraper.SubstituteOneForOne | gmusic-playlist-scraper/torrent_scraper3.py:18 | with a one-character substitute, `re.sub(r'[^a-zA-Z0-9]', c, t)` keeps the length, keeps letters and digits in place and puts `c` everywhere else |
| TorrentScraper.SubstituteKeepsAlnum | gmusic-playlist-scraper/torrent_scraper3.py:18 | a substitute with no letters or digits leaves the letters and digits of the text as they were, in order |
| TorrentScraper.NormalizeWithSpace | gmusic-playlist-scraper/torrent_scraper3.py:16-18 | `normalize(s, ' ')` is the folded text with every non-alphanumeric character replaced by a space, and nothing else changed |
| TorrentScraper.SearchString | gmusic-playlist-scraper/torrent_scraper3.py:41 | `normalize(' '.join(pair), '%20').replace(' ', '+')`; no contract of its own, characterised by TorrentScraper.SearchStringHasNoPlus, TorrentScraper.SubstituteChar and TorrentScraper.SubstituteAppend |
| TorrentScraper.QueryUrl | gmusic-playlist-scraper/torrent_scraper3.py:42 | the query URL; no contract of its own, characterised by TorrentScraper.QueryUrlInjective |
| TorrentScraper.QueryUrlInjective | gmusic-playlist-scraper/torrent_scraper3.py:42 | two query URLs are equal exactly when their search strings are, so the URL names its search string |
| TorrentScraper.SearchStringHasNoPlus | gmusic-playlist-scraper/torrent_scraper3.py:41 | the search string contains no space, so `.replace(' ', '+')` leaves it unchanged |
| TorrentScraper.ResolveCategory | gmusic-playlist-scraper/torrent_scraper3.py:79-81 | the category is `lossless` iff the lower-cased format is flac, ape or lossless; otherwise the format is kept verbatim |
| TorrentScraper.ExactMatches | gmusic-playlist-scraper/torrent_scraper3.py:69 | the comprehension with needles `normalize(field, ' ').lower()`; no contract of its own, characterised by Hits.KeepMatching, Hits.KeepMatchingOne and Hits.KeepMatchingAppend |
| TorrentScraper.FindBestMatch | gmusic-playlist-scraper/torrent_scraper3.py:62-90 | `find_best_match`; no contract of its own, characterised by TorrentScraper.FindBestMatchOutcome and TorrentScraper.FindBestMatchSound |
| TorrentScraper.FindBestMatchOutcome | gmusic-playlist-scraper/torrent_scraper3.py:62-90 | `find_best_match` without the sort: no results on `total_found == '0'`, then no exact match, then no seeds when the best exact match has zero seeds, else the reference pick of the resolved category with `success`, or the format failure |
| TorrentScraper.FindBestMatchSound | gmusic-playlist-scraper/torrent_scraper3.py:82-88 | a hash is returned iff the message is `success`; it is the hash of an exact match of the resolved category with the most seeds in that category |
| TorrentScraper.PolicaExample | gmusic-playlist-scraper/torrent_scraper3.py:62-90 | "POLIÇA" / "Shulamith" with format flac: a lossless title "Polica Shulamith FLAC" succeeds with its hash, and an mp3-only answer fails on the format |
| TorrentScraper.SingleHit | gmusic-playlist-scraper/torrent_scraper3.py:74-88 | with one seeded exact match, the verdict is success iff its category is the resolved one, and the format failure otherwise |
| TorrentScraper.ParseArtistAlbum | gmusic-playlist-scraper/torrent_scraper3.py:137-144 | `artist_album_type`; no contract of its own, characterised by TorrentScraper.ParseArtistAlbumMeaning |
| TorrentScraper.ParseArtistAlbumMeaning | gmusic-playlist-scraper/torrent_scraper3.py:137-144 | an argument is accepted as (artist, album) iff it is `artist + ' - ' + album`, the first separator follows the artist, the album has no separator and is non-empty |
| TorrentScraper.PlaylistAlbums | gmusic-playlist-scraper/torrent_scraper3.py:28-30 | the album set of the first playlist whose name equals the title exactly; None (StopIteration) iff there is none |
| TorrentScraper.GetTorrentHashes | gmusic-playlist-scraper/torrent_scraper3.py:35-51 | the loop builds exactly `hash_list` and `not_found_list` as defined album by album |
| TorrentScraper.AlbumOutcome | gmusic-playlist-scraper/torrent_scraper3.py:40-51 | one pass of the loop body: the `hash_list` entry or the `not_found_list` entry of an album; no contract of its own |
| TorrentScraper.HashList | gmusic-playlist-scraper/torrent_scraper3.py:36-49 | `hash_list` after a prefix of the albums; no contract of its own, characterised by TorrentScraper.HashListPartition and TorrentScraper.HashListComplete |
| TorrentScraper.NotFoundList | gmusic-playlist-scraper/torrent_scraper3.py:37-51 | `not_found_list` after a prefix of the albums; no contract of its own, characterised by the same two lemmas |
| TorrentScraper.HashListPartition | gmusic-playlist-scraper/torrent_scraper3.py:39-51 | the two lists together have one entry per album; a `hash_list` entry comes from some album and carries the hash the selector chose for it, and a `not_found_list` entry is some album's |
| TorrentScraper.OksErrsComplete | gmusic-playlist-scraper/torrent_scraper3.py:48-51 | splitting outcomes into found and missed entries keeps the count and lists every outcome in the list it names |
| TorrentScraper.ListsAreOutcomes | gmusic-playlist-scraper/torrent_scraper3.py:39-51 | `hash_list` and `not_found_list` are the found and missed entries of the albums' outcomes, in loop order |
| TorrentScraper.HashListComplete | gmusic-playlist-scraper/torrent_scraper3.py:39-51 | no album is dropped: album i's own entry is in `hash_list` when found and in `not_found_list` otherwise |
| Prompt.DigitsValue | gmusic-playlist-scraper/scraper.py:94 | `int(answer)` of a digit string; no contract of its own, characterised by Prompt.DecimalRoundTrip |
| Prompt.IsDigits | gmusic-playlist-scraper/scraper.py:92 | `answer.isdigit()` for ASCII digits: non-empty and all digits; a predicate, characterised by Prompt.Accepted, Prompt.DigitsValue and Prompt.DecimalRoundTrip |
| Prompt.Accepted | gmusic-playlist-scraper/scraper.py:92 | the answer ends the loop: all digits and at most the count; a predicate, characterised by Prompt.AcceptedChoicesAreZeroToCount |
| Prompt.DecimalRoundTrip | gmusic-playlist-scraper/scraper.py:94 | `int()` of the decimal numeral of k is k |
| Prompt.AcceptedChoicesAreZeroToCount | gmusic-playlist-scraper/scraper.py:92-94 | an answer ends the re-prompt loop only when it names 0..count, and each of 0..count typed plainly ends it and is read as itself |
| Prompt.FirstAccepted | gmusic-playlist-scraper/scraper.py:90-93 | the position of the first answer that ends the loop, with every earlier answer rejected; None iff every answer is rejected |
| Scraper.ResolveFormat | gmusic-playlist-scraper/scraper.py:122-123 | the format becomes `lossless` iff its lower-case form is flac or ape (or it already is `lossless`); otherwise it is kept verbatim |
| Scraper.AliasesDifferOnlyOnLosslessSpelling | gmusic-playlist-scraper/scraper.py:122-123 | the two variants' aliases differ exactly on spellings of `lossless` other than the lower-case one |
| Scraper.Suggested | gmusic-playlist-scraper/scraper.py:85-100 | the first accepted answer decides: 0 records the error text, k merges the k-th alternative; the answers used end at that one; end of input iff none is accepted |
| Scraper.SuggestAlternative | gmusic-playlist-scraper/scraper.py:85-100 | the re-prompt loop returns exactly what Suggested describes |
| Scraper.Merge | gmusic-playlist-scraper/scraper.py:99 | `best_match.update(hit)`; no contract of its own, characterised by Scraper.BestMatchNeverSubstitutes (the record keeps its album and carries the merged hit) |
| Scraper.ExactMatches | gmusic-playlist-scraper/scraper.py:111 | the comprehension with needles `normalize(field).lower()`; no contract of its own, characterised by Hits.KeepMatching and Scraper.SearchQueryJoinsNeedles |
| Scraper.BestMatchSpec | gmusic-playlist-scraper/scraper.py:103-131 | the outcome of `get_best_match` without the sort; it never uses more answers than supplied, and is characterised by the three lemmas below and by Scraper.GetBestMatch |
| Scraper.BestMatchNeverSubstitutes | gmusic-playlist-scraper/scraper.py:103-131 | the record keeps the album asked for; it carries a hit iff it has no failure message; the hit comes from the search; a hit whose title does not name both artist and album arrives only by the operator's choice when nothing matched |
| Scraper.BestMatchAutomaticPick | gmusic-playlist-scraper/scraper.py:117-126 | a hit taken without asking is an exact match of the resolved format, with at least as many seeds as any exact match of that format |
| Scraper.BestMatchAsksOnlyWhenInconclusive | gmusic-playlist-scraper/scraper.py:106-129 | the operator is asked only when nothing matched exactly, or when exact matches have seeds but none has the format; never on `total_found == '0'` or when there are no seeds |
| Scraper.SearchResults.PopTotalFound | gmusic-playlist-scraper/scraper.py:106 | `results.pop('total_found')` returns the value and removes the key, leaving the hits alone |
| Scraper.GetBestMatch | gmusic-playlist-scraper/scraper.py:103-131 | pops `total_found` from the caller's results, and its outcome is the sort-free BestMatchSpec of the old contents |
| Scraper.AlbumsFromPlaylist | gmusic-playlist-scraper/scraper.py:38-43 | the album set of the first playlist whose name matches ignoring case; otherwise the error `playlist not found.` |
| Scraper.SearchQuery | gmusic-playlist-scraper/scraper.py:60 | the text given to `urllib2.quote` is ASCII without capital letters, and every character other than a lower-case letter comes from the decomposed `artist + ' ' + album`; Scraper.SearchQueryJoinsNeedles fixes its value |
| Scraper.SearchQueryJoinsNeedles | gmusic-playlist-scraper/scraper.py:60 | when the decomposition keeps the joining space, the query is the filter's artist needle, a space and the album needle (the needles of line 111), so it contains both |
| Scraper.MagnetFileFor | gmusic-playlist-scraper/scraper.py:137-141 | the file name is the folded title followed by `.magnet`, so it is ASCII; its content is a magnet link from which the hit's hash reads back |
| Scraper.Step | gmusic-playlist-scraper/scraper.py:58-71 | one pass of the loop body; the answers it has consumed never exceed those supplied |
| Scraper.Run | gmusic-playlist-scraper/scraper.py:57-71 | the loop state after a prefix of the albums; the answers consumed never exceed those supplied |
| Scraper.GetTorrentHashes | gmusic-playlist-scraper/scraper.py:53-83 | the loop's lists, files and consumed answers are exactly Run over the albums; the result is the found list, or None when there is none (or the input ran out) |
| Scraper.RunPartition | gmusic-playlist-scraper/scraper.py:57-71 | without an abort the two lists together have one record per album; found records have a hit and no failure, missed ones a failure; the files are the found records' magnet files in order; every record is for a requested album |
| Scraper.StepGrows | gmusic-playlist-scraper/scraper.py:65-71 | one pass only appends to the two lists, and an abort stays an abort |
| Scraper.RunPrefix | gmusic-playlist-scraper/scraper.py:57-71 | the lists after a prefix of the albums are prefixes of the final lists, and a run that ends unaborted never aborted |
| Scraper.RunListsEveryAlbum | gmusic-playlist-scraper/scraper.py:64-71 | no album is dropped: in an unaborted run, the record `get_best_match` returned for album i is in `found_list` when it has a hash and in `not_found_list` otherwise |
| Scraper.AbortIsFinal | gmusic-playlist-scraper/scraper.py:90-93 | once the input has run out at some album, the later albums change nothing |
| ScraperConfig.MergeConfig | gmusic-playlist-scraper/scraper.py:147-156 | with config.json, every command-line value that is not None overrides; other config.json keys keep their values; no other key appears; without it, the command-line dict as it is |
| ScraperConfig.DefaultsOverrideConfigFile | gmusic-playlist-scraper/scraper.py:22-23 | with config.json and nothing typed, `format` becomes `mp3` and `dir` the default directory whatever config.json says, and every other config.json key is kept |
| ScraperConfig.PresenceCheckPassesWithoutConfigFile | gmusic-playlist-scraper/scraper.py:155-158 | without config.json the key-presence check always passes, because argparse supplies every destination |
| ScraperConfig.RequiredKeysPresent | gmusic-playlist-scraper/scraper.py:158 | the check as written: login, password and playlist are keys of the config; a predicate, characterised by ScraperConfig.PresenceCheckPassesWithoutConfigFile and ScraperConfig.PresenceCheckAcceptsMissingValues |
| ScraperConfig.PresenceCheckAcceptsMissingValues | gmusic-playlist-scraper/scraper.py:158 | no config.json and no login, password or playlist given: the check as written passes and the intended one fails |
| ScraperConfig.LoadConfig | gmusic-playlist-scraper/scraper.py:158-160 | continues with the merged config only when login, password and playlist all have values; otherwise the exact exit message, and one of them is missing |

## Left out

- Google Music: `Mobileclient` login, fetching the playlists and logout,
  and the `sys.exit` messages of the NotLoggedIn and StopIteration
  handlers. The model starts from the list of playlists already fetched.
  For a missing playlist, it returns `playlist not found.` as an error
  value, or None.
- The torrent index: the HTTP request, JSON decoding and the query URL of
  scraper.py. The index is the `search` parameter.
  - `Scraper.SearchQuery` is the text before `urllib2.quote`. Quoting is
    not modelled.
- The hit dict's order: Python 2 yields `dict.items()` / `values()` in an
  unspecified order. The model takes the hits as a sequence in whatever
  order the dict yields them, so ties between equal seed counts depend on
  that order.
- Hit fields other than title, category, seeds and torrent_hash. Such
  fields are copied by `best_match.update` but never read.
- Unicode: the NFKD tables are the `nfkd` parameter. `lower()` is modelled
  on ASCII letters only, so a non-ASCII letter in a title is compared as is.
- `Prompt.IsDigits`: accepts ASCII digits only. Python's `isdigit()` also
  accepts other Unicode digits.
- `Scraper.GetBestMatch`: requires `total_found` to be present. Without it
  the source raises KeyError, which the model does not represent.
- `add_torrents`: the uTorrent Web API calls, the token scrape, and the
  local-copy check with its y/n prompt. Only the magnet link text is
  modelled (`Hits.MagnetLink`).
- `save_hash_to_file`: `os.path.expandvars`, `makedirs`, `os.path.join` and
  the write itself. `Scraper.MagnetFileFor` models the file name and content.
- argparse, the parsing of config.json, and every `print`.
  - The error text of `artist_album_type` is reduced to a None result.
  - `unicode(s, 'utf-8')` decoding is not modelled. Arguments are taken as
    text.
- In scraper.py, `get_albums_from_playlist` with a missing playlist name
  raises AttributeError on `None.lower()`. The model takes the name as text.
- In scraper.py, the set of albums is iterated in Python's set order. Both
  loops take the albums as a sequence in that iteration order.
- In torrent_scraper3.py, printing the unsuccessful searches only when more
  than one failed. That is console output only.
- setup.py is not part of this model.

## Findings

| source | as written | input that shows it | evidently intended | confidence | as-written member | corrected member |
|---|---|---|---|---|---|---|
| gmusic-playlist-scraper/scraper.py:158 | `all(key in config for key in ['login', 'password', 'playlist'])` tests only that the keys exist; without config.json, `vars(parse_args())` always holds all six destinations, with None for those not given | no config.json and an empty command line: the check passes with login, password and playlist all None, and the run goes on to log in with None | stop with the "incomplete combination" message unless login, password and playlist all have values | not executed; follows from argparse filling every destination | ScraperConfig.PresenceCheckAcceptsMissingValues | ScraperConfig.LoadConfig |
