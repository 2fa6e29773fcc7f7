/**
 * scraper.py: the interactive variant. Titles are matched against the
 * ASCII-folded artist and album, and the two inconclusive cases (no exact
 * match, no hit in the wanted format) ask the operator to pick one of the
 * alternatives by number. Each found album is saved as a `.magnet` file.
 */
module Scraper {

  import opened Wrappers
  import opened Text
  import opened Hits
  import opened Playlists
  import opened Prompt
  import TorrentScraper

  /**
   * The `best_match` dict. `failure_message` is None until a failure is
   * recorded; `chosen` holds the fields `best_match.update(hit)` copies in
   * (title, category, seeds and torrent_hash).
   */
  datatype MatchRecord = MatchRecord(artist: string, album: string, failureMessage: Option<string>, chosen: Option<Hit>)
  {
    /** `best_match['torrent_hash']`. */
    function TorrentHash(): Option<string> {
      if chosen.Some? then Some(chosen.value.torrentHash) else None
    }
  }

  function NewRecord(artist: string, album: string): MatchRecord {
    MatchRecord(artist, album, None, None)
  }

  /** `best_match.update(hit)`. */
  function Merge(record: MatchRecord, h: Hit): MatchRecord {
    record.(chosen := Some(h))
  }

  /**
   * The outcome of a step that may read answers: the record and how many
   * answer lines it consumed, or the end of input reached while the prompt
   * was still waiting (`input()` raises EOFError and the run stops).
   */
  datatype Prompted = Completed(record: MatchRecord, used: nat) | InputExhausted

  const NoResults: string := "No torrent results found."
  const NoExactMatch: string := "Results found for either artist or album but they didn't match both exactly."
  const NoSeeds: string := "Results found, but none had seeds."
  const NoFormat: string := "Results with seeds were found but none in the desired format."
  const PlaylistNotFound: string := "playlist not found."

  /** The format alias of this variant: only `flac` and `ape`, in any case, mean `lossless`. */
  function ResolveFormat(fileFormat: string): (r: string)
    ensures r == "lossless" <==> Lower(fileFormat) in {"flac", "ape"} || fileFormat == "lossless"
    ensures r != "lossless" ==> r == fileFormat
  {
    if Lower(fileFormat) in ["flac", "ape"] then "lossless" else fileFormat
  }

  /**
   * The two variants resolve a format alike except for a spelling of
   * `lossless` in another case, which only torrent_scraper3.py folds.
   */
  lemma AliasesDifferOnlyOnLosslessSpelling(fileFormat: string)
    ensures ResolveFormat(fileFormat) != TorrentScraper.ResolveCategory(fileFormat)
        <==> Lower(fileFormat) == "lossless" && fileFormat != "lossless"
  {
    LowerIsIdentityOnLowercase("lossless");
  }

  /** The hits whose lower-cased title holds `normalize(artist).lower()` and `normalize(album).lower()`. */
  function ExactMatches(nfkd: string -> string, hits: seq<Hit>, artist: string, album: string): seq<Hit> {
    KeepMatching(hits, Lower(Fold(nfkd, artist)), Lower(Fold(nfkd, album)))
  }

  /**
   * What `suggest_alternative` returns, read off the first accepted answer:
   * the end of input when no answer is accepted; otherwise choice 0 records
   * the error text and choice k merges the k-th alternative (counting from 1).
   */
  function Suggested(bestMatch: MatchRecord, alternatives: seq<Hit>, errorMsg: string, answers: seq<string>)
    : (r: Prompted)
    ensures r.InputExhausted? <==> forall j :: 0 <= j < |answers| ==> !Accepted(answers[j], |alternatives|)
    ensures r.Completed? ==>
      && 1 <= r.used <= |answers|
      && Accepted(answers[r.used - 1], |alternatives|)
      && (forall j :: 0 <= j < r.used - 1 ==> !Accepted(answers[j], |alternatives|))
      && var choice := DigitsValue(answers[r.used - 1]);
         r.record == if choice == 0 then bestMatch.(failureMessage := Some(errorMsg))
                     else Merge(bestMatch, alternatives[choice - 1])
  {
    match FirstAccepted(answers, |alternatives|, 0)
    case None => InputExhausted
    case Some(i) =>
      var choice := DigitsValue(answers[i]);
      Completed(if choice == 0 then bestMatch.(failureMessage := Some(errorMsg))
                else Merge(bestMatch, alternatives[choice - 1]), i + 1)
  }

  /** `suggest_alternative(best_match, filtered_results, error_msg)`, reading the supplied answer lines. */
  method SuggestAlternative(bestMatch: MatchRecord, alternatives: seq<Hit>, errorMsg: string, answers: seq<string>)
    returns (outcome: Prompted)
    ensures outcome == Suggested(bestMatch, alternatives, errorMsg, answers)
  {
    if |answers| == 0 {
      return InputExhausted;
    }
    var answer := answers[0];
    var used := 1;
    while !(IsDigits(answer) && DigitsValue(answer) <= |alternatives|)
      invariant 1 <= used <= |answers|
      invariant answer == answers[used - 1]
      invariant FirstAccepted(answers, |alternatives|, 0) == FirstAccepted(answers, |alternatives|, used - 1)
      decreases |answers| - used
    {
      if used == |answers| {
        return InputExhausted;
      }
      answer := answers[used];
      used := used + 1;
    }
    var choice := DigitsValue(answer);
    if choice == 0 {
      return Completed(bestMatch.(failureMessage := Some(errorMsg)), used);
    }
    return Completed(Merge(bestMatch, alternatives[choice - 1]), used);
  }

  /**
   * What `get_best_match` returns, described without the sort except for the
   * list the operator is offered: `total_found == '0'` fails at once; no exact
   * match offers every hit; exact matches without seeds fail without asking;
   * otherwise the exact match of the resolved format with the most seeds
   * (earliest on a tie) is merged, and when the format has none the operator
   * is offered the ranked exact matches.
   */
  function BestMatchSpec(nfkd: string -> string, totalFound: string, hits: seq<Hit>, fileFormat: string,
                         artist: string, album: string, answers: seq<string>): (r: Prompted)
    ensures r.Completed? ==> r.used <= |answers|
  {
    var record := NewRecord(artist, album);
    if totalFound == "0" then Completed(record.(failureMessage := Some(NoResults)), 0)
    else
      var exact := ExactMatches(nfkd, hits, artist, album);
      if exact == [] then Suggested(record, hits, NoExactMatch, answers)
      else if MaxSeeds(exact) == 0 then Completed(record.(failureMessage := Some(NoSeeds)), 0)
      else match BestInCategory(exact, ResolveFormat(fileFormat))
        case Some(h) => Completed(Merge(record, h), 0)
        case None => Suggested(record, RankBySeeds(exact), NoFormat, answers)
  }

  lemma RankedAreExact(exact: seq<Hit>)
    ensures forall x :: x in RankBySeeds(exact) ==> x in exact
  {
    forall x | x in RankBySeeds(exact) ensures x in exact {
      assert x in multiset(RankBySeeds(exact));
    }
  }

  /**
   * `get_best_match` keeps the album it was asked about, sets exactly one of
   * hash and failure message, and returns only a hit of the search; a hit
   * whose title does not name both artist and album is returned only when
   * the operator picked it after nothing matched.
   */
  lemma BestMatchNeverSubstitutes(nfkd: string -> string, totalFound: string, hits: seq<Hit>, fileFormat: string,
                                  artist: string, album: string, answers: seq<string>)
    ensures var r := BestMatchSpec(nfkd, totalFound, hits, fileFormat, artist, album, answers);
            r.Completed? ==>
              && r.record.artist == artist && r.record.album == album
              && (r.record.chosen.Some? <==> r.record.failureMessage.None?)
              && (r.record.chosen.Some? ==> r.record.chosen.value in hits)
    ensures var r := BestMatchSpec(nfkd, totalFound, hits, fileFormat, artist, album, answers);
            r.Completed? && r.record.chosen.Some?
              && !TitleHasBoth(r.record.chosen.value, Lower(Fold(nfkd, artist)), Lower(Fold(nfkd, album)))
            ==> r.used > 0 && ExactMatches(nfkd, hits, artist, album) == []
  {
    var exact := ExactMatches(nfkd, hits, artist, album);
    if totalFound != "0" && exact != [] {
      BestInCategorySound(exact, ResolveFormat(fileFormat));
      RankedAreExact(exact);
    }
  }

  /**
   * A hit taken without asking is an exact match of the resolved format
   * with as many seeds as any exact match of that format.
   */
  lemma BestMatchAutomaticPick(nfkd: string -> string, totalFound: string, hits: seq<Hit>, fileFormat: string,
                               artist: string, album: string, answers: seq<string>)
    ensures var r := BestMatchSpec(nfkd, totalFound, hits, fileFormat, artist, album, answers);
            var exact := ExactMatches(nfkd, hits, artist, album);
            r.Completed? && r.used == 0 && r.record.chosen.Some? ==>
              && r.record.chosen.value in exact
              && r.record.chosen.value.category == ResolveFormat(fileFormat)
              && forall x :: x in exact && x.category == r.record.chosen.value.category
                   ==> x.seeds <= r.record.chosen.value.seeds
  {
    var exact := ExactMatches(nfkd, hits, artist, album);
    if totalFound != "0" && exact != [] {
      BestInCategorySound(exact, ResolveFormat(fileFormat));
    }
  }

  /**
   * The operator is asked only when nothing matched exactly, or when the
   * exact matches have seeds but none is in the resolved format; never when
   * `total_found` is `'0'` or the exact matches have no seeds.
   */
  lemma BestMatchAsksOnlyWhenInconclusive(nfkd: string -> string, totalFound: string, hits: seq<Hit>,
                                          fileFormat: string, artist: string, album: string, answers: seq<string>)
    ensures var r := BestMatchSpec(nfkd, totalFound, hits, fileFormat, artist, album, answers);
            var exact := ExactMatches(nfkd, hits, artist, album);
            (r.InputExhausted? || r.used > 0) ==>
              totalFound != "0" && (exact == [] || (MaxSeeds(exact) != 0
                && forall x :: x in exact ==> x.category != ResolveFormat(fileFormat)))
  {
    var exact := ExactMatches(nfkd, hits, artist, album);
    if totalFound != "0" && exact != [] {
      var _ := BestInCategoryMeaning(exact, ResolveFormat(fileFormat));
    }
  }

  /** The results dict of one search, which `get_best_match` changes by popping `total_found`. */
  class SearchResults {
    var totalFound: Option<string>
    var hits: seq<Hit>

    constructor (response: Response)
      ensures totalFound == Some(response.totalFound) && hits == response.hits
    {
      totalFound := Some(response.totalFound);
      hits := response.hits;
    }

    /** `results.pop('total_found')`; the key must be there. */
    method PopTotalFound() returns (v: string)
      requires totalFound.Some?
      modifies this
      ensures v == old(totalFound).value
      ensures totalFound == None && hits == old(hits)
    {
      v := totalFound.value;
      totalFound := None;
    }
  }

  /**
   * `get_best_match(results, file_format, artist, album)`: removes
   * `total_found` from the caller's dict and returns what BestMatchSpec says.
   */
  method GetBestMatch(nfkd: string -> string, results: SearchResults, fileFormat: string,
                      artist: string, album: string, answers: seq<string>)
    returns (outcome: Prompted)
    requires results.totalFound.Some?
    modifies results
    ensures results.totalFound == None && results.hits == old(results.hits)
    ensures outcome == BestMatchSpec(nfkd, old(results.totalFound).value, old(results.hits),
                                     fileFormat, artist, album, answers)
  {
    var bestMatch := NewRecord(artist, album);
    var totalFound := results.PopTotalFound();
    if totalFound == "0" {
      return Completed(bestMatch.(failureMessage := Some(NoResults)), 0);
    }
    var allResults := results.hits;
    var filtered := ExactMatches(nfkd, allResults, artist, album);
    if filtered == [] {
      outcome := SuggestAlternative(bestMatch, allResults, NoExactMatch, answers);
      return;
    }
    var exact := filtered;
    filtered := RankBySeeds(filtered);
    RankTopIsMax(exact);
    if filtered[0].seeds == 0 {
      return Completed(bestMatch.(failureMessage := Some(NoSeeds)), 0);
    }
    var format := ResolveFormat(fileFormat);
    RankedFirstIsBest(exact, format);
    match FirstInCategory(filtered, format)
    case Some(found) =>
      outcome := Completed(Merge(bestMatch, found), 0);
    case None =>
      outcome := SuggestAlternative(bestMatch, filtered, NoFormat, answers);
  }

  /** The pure part of `get_albums_from_playlist`: the first playlist whose name matches ignoring case. */
  function AlbumsFromPlaylist(playlists: seq<Playlist>, name: string): (r: Result<set<AlbumKey>, string>)
    ensures r.Err? <==> forall j :: 0 <= j < |playlists| ==> Lower(playlists[j].name) != Lower(name)
    ensures r.Err? ==> r.error == PlaylistNotFound
    ensures r.Ok? ==>
      exists i :: 0 <= i < |playlists| && Lower(playlists[i].name) == Lower(name)
        && (forall j :: 0 <= j < i ==> Lower(playlists[j].name) != Lower(name))
        && r.value == AlbumKeysOf(playlists[i].tracks)
  {
    match FirstNamed(playlists, name, true)
    case None => Err(PlaylistNotFound)
    case Some(i) => Ok(AlbumKeysOf(playlists[i].tracks))
  }

  /** The query text `normalize(' '.join(artist_album)).lower()`, before URL quoting. */
  function SearchQuery(nfkd: string -> string, key: AlbumKey): (q: string)
    ensures IsAscii(q) && forall i :: 0 <= i < |q| ==> !('A' <= q[i] <= 'Z')
    ensures forall c :: c in q && !('a' <= c <= 'z') ==> c in nfkd(key.artist + " " + key.album)
  {
    Lower(Fold(nfkd, key.artist + " " + key.album))
  }

  /**
   * When the decomposition keeps the joining space between artist and album,
   * the query is the album filter's two needles joined by a space: one
   * normalisation serves both the search and the title filter.
   */
  lemma SearchQueryJoinsNeedles(nfkd: string -> string, key: AlbumKey)
    requires nfkd(key.artist + " " + key.album) == nfkd(key.artist) + " " + nfkd(key.album)
    ensures SearchQuery(nfkd, key) == Lower(Fold(nfkd, key.artist)) + " " + Lower(Fold(nfkd, key.album))
    ensures Contains(SearchQuery(nfkd, key), Lower(Fold(nfkd, key.artist)))
    ensures Contains(SearchQuery(nfkd, key), Lower(Fold(nfkd, key.album)))
  {
    var a, b := nfkd(key.artist), nfkd(key.album);
    AsciiOnlyAppend(a + " ", b);
    AsciiOnlyAppend(a, " ");
    AsciiOnlyChar(' ');
    var fa, fb := AsciiOnly(a), AsciiOnly(b);
    assert Fold(nfkd, key.artist + " " + key.album) == fa + " " + fb;
    LowerAppend(fa + " ", fb);
    LowerAppend(fa, " ");
    var q := SearchQuery(nfkd, key);
    assert q == Lower(fa) + " " + Lower(fb);
    assert OccursAt(q, Lower(fa), 0);
    assert OccursAt(q, Lower(fb), |Lower(fa)| + 1);
  }

  /** A file `save_hash_to_file` writes: its name inside the target directory, and its content. */
  datatype MagnetFile = MagnetFile(name: string, content: string)

  /** `normalize(title) + os.extsep + 'magnet'` holding `'magnet:?xt=urn:btih:%s' % torrent_hash`. */
  function MagnetFileFor(nfkd: string -> string, h: Hit): (f: MagnetFile)
    ensures IsAscii(f.name) && |f.name| >= 7 && f.name[|f.name| - 7..] == ".magnet"
    ensures f.name[..|f.name| - 7] == Fold(nfkd, h.title)
    ensures MagnetHash(f.content) == Some(h.torrentHash)
  {
    MagnetRoundTrip(h.torrentHash, MagnetLink(h.torrentHash));
    var name := Fold(nfkd, h.title) + ".magnet";
    assert name[|name| - 7..] == ".magnet";
    MagnetFile(name, MagnetLink(h.torrentHash))
  }

  /**
   * The state of the search loop: `found_list`, `not_found_list`, the files
   * written so far, the answer lines consumed, and whether the input ran out
   * (EOFError), which ends the run.
   */
  datatype RunLog = RunLog(found: seq<MatchRecord>, notFound: seq<MatchRecord>, files: seq<MagnetFile>,
                           used: nat, aborted: bool)

  /** One pass of the loop body for `key`. */
  function Step(nfkd: string -> string, search: string -> Response, fileFormat: string, answers: seq<string>,
                log: RunLog, key: AlbumKey): (r: RunLog)
    requires log.used <= |answers|
    ensures r.used <= |answers|
  {
    if log.aborted then log
    else
      var response := search(SearchQuery(nfkd, key));
      match BestMatchSpec(nfkd, response.totalFound, response.hits, fileFormat, key.artist, key.album,
                          answers[log.used..])
      case InputExhausted => log.(aborted := true)
      case Completed(record, k) =>
        if record.TorrentHash().Some?
        then log.(found := log.found + [record], files := log.files + [MagnetFileFor(nfkd, record.chosen.value)],
                  used := log.used + k)
        else log.(notFound := log.notFound + [record], used := log.used + k)
  }

  /** The loop state after `albums`. */
  function Run(nfkd: string -> string, search: string -> Response, fileFormat: string, answers: seq<string>,
               albums: seq<AlbumKey>): (r: RunLog)
    ensures r.used <= |answers|
  {
    if albums == [] then RunLog([], [], [], 0, false)
    else Step(nfkd, search, fileFormat, answers, Run(nfkd, search, fileFormat, answers, albums[..|albums| - 1]),
              albums[|albums| - 1])
  }

  lemma RunExtends(nfkd: string -> string, search: string -> Response, fileFormat: string, answers: seq<string>,
                   albums: seq<AlbumKey>, i: nat)
    requires i < |albums|
    ensures Run(nfkd, search, fileFormat, answers, albums[..i + 1])
         == Step(nfkd, search, fileFormat, answers, Run(nfkd, search, fileFormat, answers, albums[..i]), albums[i])
  {
    assert albums[..i + 1][..i] == albums[..i];
  }

  lemma StepBy(nfkd: string -> string, search: string -> Response, fileFormat: string, answers: seq<string>,
               log: RunLog, key: AlbumKey, outcome: Prompted)
    requires log.used <= |answers| && !log.aborted
    requires var response := search(SearchQuery(nfkd, key));
             outcome == BestMatchSpec(nfkd, response.totalFound, response.hits, fileFormat, key.artist, key.album,
                                      answers[log.used..])
    ensures Step(nfkd, search, fileFormat, answers, log, key)
         == match outcome
            case InputExhausted => log.(aborted := true)
            case Completed(record, k) =>
              if record.TorrentHash().Some?
              then log.(found := log.found + [record],
                        files := log.files + [MagnetFileFor(nfkd, record.chosen.value)], used := log.used + k)
              else log.(notFound := log.notFound + [record], used := log.used + k)
  {
  }

  /** Once the input has run out, no later album changes anything. */
  lemma {:induction false} AbortIsFinal(nfkd: string -> string, search: string -> Response, fileFormat: string,
                                        answers: seq<string>, albums: seq<AlbumKey>, n: nat)
    requires n <= |albums|
    requires Run(nfkd, search, fileFormat, answers, albums[..n]).aborted
    decreases |albums| - n
    ensures Run(nfkd, search, fileFormat, answers, albums) == Run(nfkd, search, fileFormat, answers, albums[..n])
  {
    if n < |albums| {
      assert albums[..n + 1][..n] == albums[..n];
      AbortIsFinal(nfkd, search, fileFormat, answers, albums, n + 1);
    } else {
      assert albums[..n] == albums;
    }
  }

  /**
   * `get_torrent_hashes(album_list, file_format, save_dir)`: searches each
   * album (the index supplied as `search`, from query text to parsed
   * response), saves a magnet file for every match and returns the found
   * records, or None when there are none.
   */
  method GetTorrentHashes(nfkd: string -> string, albums: seq<AlbumKey>, fileFormat: string,
                          search: string -> Response, answers: seq<string>)
    returns (result: Option<seq<MatchRecord>>, log: RunLog)
    ensures log == Run(nfkd, search, fileFormat, answers, albums)
    ensures result == if !log.aborted && |log.found| > 0 then Some(log.found) else None
  {
    var foundList: seq<MatchRecord> := [];
    var notFoundList: seq<MatchRecord> := [];
    var files: seq<MagnetFile> := [];
    var used := 0;
    var i := 0;
    while i < |albums|
      invariant 0 <= i <= |albums|
      invariant RunLog(foundList, notFoundList, files, used, false)
             == Run(nfkd, search, fileFormat, answers, albums[..i])
    {
      var key := albums[i];
      ghost var before := RunLog(foundList, notFoundList, files, used, false);
      RunExtends(nfkd, search, fileFormat, answers, albums, i);
      var results := new SearchResults(search(SearchQuery(nfkd, key)));
      var bestMatch := GetBestMatch(nfkd, results, fileFormat, key.artist, key.album, answers[used..]);
      StepBy(nfkd, search, fileFormat, answers, before, key, bestMatch);
      match bestMatch
      case InputExhausted =>
        log := RunLog(foundList, notFoundList, files, used, true);
        AbortIsFinal(nfkd, search, fileFormat, answers, albums, i + 1);
        return None, log;
      case Completed(record, k) =>
        used := used + k;
        if record.TorrentHash().Some? {
          foundList := foundList + [record];
          files := files + [MagnetFileFor(nfkd, record.chosen.value)];
        } else {
          notFoundList := notFoundList + [record];
        }
      i := i + 1;
    }
    assert albums[..i] == albums;
    log := RunLog(foundList, notFoundList, files, used, false);
    result := if |foundList| > 0 then Some(foundList) else None;
  }

  /**
   * A run that was not cut short puts every album in exactly one of the two
   * lists; found records carry a hash and a failure-free record, missed ones
   * a failure message; and the files written are the magnet files of the
   * found records, in order.
   */
  lemma {:induction false} RunPartition(nfkd: string -> string, search: string -> Response, fileFormat: string,
                                        answers: seq<string>, albums: seq<AlbumKey>)
    ensures var log := Run(nfkd, search, fileFormat, answers, albums);
            !log.aborted ==> |log.found| + |log.notFound| == |albums|
    ensures var log := Run(nfkd, search, fileFormat, answers, albums);
            && |log.files| == |log.found|
            && (forall i :: 0 <= i < |log.found| ==>
                  log.found[i].chosen.Some? && log.found[i].failureMessage.None?
                  && log.files[i] == MagnetFileFor(nfkd, log.found[i].chosen.value))
            && (forall i :: 0 <= i < |log.notFound| ==>
                  log.notFound[i].chosen.None? && log.notFound[i].failureMessage.Some?)
    ensures var log := Run(nfkd, search, fileFormat, answers, albums);
            forall record :: record in log.found + log.notFound ==> AlbumKey(record.artist, record.album) in albums
  {
    if albums != [] {
      var init := albums[..|albums| - 1];
      var key := albums[|albums| - 1];
      RunPartition(nfkd, search, fileFormat, answers, init);
      var before := Run(nfkd, search, fileFormat, answers, init);
      assert forall k :: k in init ==> k in albums;
      if !before.aborted {
        var response := search(SearchQuery(nfkd, key));
        BestMatchNeverSubstitutes(nfkd, response.totalFound, response.hits, fileFormat, key.artist, key.album,
                                  answers[before.used..]);
      }
    }
  }

  /** One step only appends to the two lists and the files, and an abort stays an abort. */
  lemma StepGrows(nfkd: string -> string, search: string -> Response, fileFormat: string, answers: seq<string>,
                  log: RunLog, key: AlbumKey)
    requires log.used <= |answers|
    ensures var next := Step(nfkd, search, fileFormat, answers, log, key);
            && log.found <= next.found && log.notFound <= next.notFound
            && (log.aborted ==> next.aborted)
  {
  }

  /** The lists after a prefix of the albums are prefixes of the final lists, and a run that ends unaborted never aborted. */
  lemma {:induction false} RunPrefix(nfkd: string -> string, search: string -> Response, fileFormat: string,
                                     answers: seq<string>, albums: seq<AlbumKey>, n: nat)
    requires n <= |albums|
    decreases |albums| - n
    ensures var part := Run(nfkd, search, fileFormat, answers, albums[..n]);
            var full := Run(nfkd, search, fileFormat, answers, albums);
            && part.found <= full.found && part.notFound <= full.notFound
            && (part.aborted ==> full.aborted)
  {
    if n < |albums| {
      RunPrefix(nfkd, search, fileFormat, answers, albums, n + 1);
      RunExtends(nfkd, search, fileFormat, answers, albums, n);
      StepGrows(nfkd, search, fileFormat, answers, Run(nfkd, search, fileFormat, answers, albums[..n]), albums[n]);
    } else {
      assert albums[..n] == albums;
    }
  }

  /**
   * No album is dropped: in a run that did not run out of input, the record
   * `get_best_match` returned for album i is in `found_list` when it has a
   * hash and in `not_found_list` when it has none.
   */
  lemma RunListsEveryAlbum(nfkd: string -> string, search: string -> Response, fileFormat: string,
                           answers: seq<string>, albums: seq<AlbumKey>, i: nat)
    requires i < |albums|
    ensures var before := Run(nfkd, search, fileFormat, answers, albums[..i]);
            var response := search(SearchQuery(nfkd, albums[i]));
            var outcome := BestMatchSpec(nfkd, response.totalFound, response.hits, fileFormat,
                                         albums[i].artist, albums[i].album, answers[before.used..]);
            var log := Run(nfkd, search, fileFormat, answers, albums);
            !log.aborted ==>
            && outcome.Completed?
            && (outcome.record.TorrentHash().Some? ==> outcome.record in log.found)
            && (outcome.record.TorrentHash().None? ==> outcome.record in log.notFound)
  {
    if !Run(nfkd, search, fileFormat, answers, albums).aborted {
      var before := Run(nfkd, search, fileFormat, answers, albums[..i]);
      var response := search(SearchQuery(nfkd, albums[i]));
      var outcome := BestMatchSpec(nfkd, response.totalFound, response.hits, fileFormat,
                                   albums[i].artist, albums[i].album, answers[before.used..]);
      var next := Run(nfkd, search, fileFormat, answers, albums[..i + 1]);
      var log := Run(nfkd, search, fileFormat, answers, albums);
      RunExtends(nfkd, search, fileFormat, answers, albums, i);
      RunPrefix(nfkd, search, fileFormat, answers, albums, i + 1);
      StepGrows(nfkd, search, fileFormat, answers, before, albums[i]);
      assert !next.aborted && !before.aborted;
      StepBy(nfkd, search, fileFormat, answers, before, albums[i], outcome);
      match outcome
      case InputExhausted =>
      case Completed(record, _) =>
        if record.TorrentHash().Some? {
          assert record in next.found;
          InPrefix(record, next.found, log.found);
        } else {
          assert record in next.notFound;
          InPrefix(record, next.notFound, log.notFound);
        }
    }
  }

  lemma InPrefix(x: MatchRecord, a: seq<MatchRecord>, b: seq<MatchRecord>)
    requires a <= b && x in a
    ensures x in b
  {
    var j :| 0 <= j < |a| && a[j] == x;
    assert b[j] == x;
  }
}
