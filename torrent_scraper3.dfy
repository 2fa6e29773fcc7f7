/**
 * torrent_scraper3.py: the fully automatic variant. Searches are built with
 * `normalize(..., '%20')`, the best hit is chosen without asking anyone, and
 * the album can come from a playlist or from an "Artist - Album" argument.
 */
module TorrentScraper {

  import opened Wrappers
  import opened Text
  import opened Hits
  import opened Playlists

  /** `re.sub(r'[^a-zA-Z0-9]', sub, t)`. */
  function SubstituteNonAlnum(t: string, sub: string): string {
    if t == [] then []
    else (if IsAlnum(t[0]) then [t[0]] else sub) + SubstituteNonAlnum(t[1..], sub)
  }

  /** Each character is handled on its own: kept when it is a letter or digit, replaced by `sub` otherwise. */
  lemma SubstituteChar(c: char, sub: string)
    ensures SubstituteNonAlnum([c], sub) == if IsAlnum(c) then [c] else sub
  {
    assert [c][1..] == [];
  }

  /** The substitution works left to right, so it distributes over concatenation and keeps the order. */
  lemma {:induction false} SubstituteAppend(a: string, b: string, sub: string)
    ensures SubstituteNonAlnum(a + b, sub) == SubstituteNonAlnum(a, sub) + SubstituteNonAlnum(b, sub)
  {
    if a == [] {
      assert a + b == b;
    } else {
      assert (a + b)[0] == a[0];
      assert (a + b)[1..] == a[1..] + b;
      SubstituteAppend(a[1..], b, sub);
    }
  }

  /** `normalize(s, sub)`: fold to ASCII; when `sub` is non-empty, also replace every non-alphanumeric. */
  function Normalize(nfkd: string -> string, s: string, sub: string): string {
    if sub == "" then Fold(nfkd, s) else SubstituteNonAlnum(Fold(nfkd, s), sub)
  }

  /** The alphanumeric characters of `t`, in order. */
  function AlnumOnly(t: string): string {
    if t == [] then [] else (if IsAlnum(t[0]) then [t[0]] else []) + AlnumOnly(t[1..])
  }

  lemma {:induction false} AlnumOnlyAppend(a: string, b: string)
    ensures AlnumOnly(a + b) == AlnumOnly(a) + AlnumOnly(b)
  {
    if a != [] {
      assert (a + b)[0] == a[0];
      assert (a + b)[1..] == a[1..] + b;
      AlnumOnlyAppend(a[1..], b);
    } else {
      assert a + b == b;
    }
  }

  /** A one-character substitute replaces each other character in place. */
  lemma {:induction false} SubstituteOneForOne(t: string, c: char)
    ensures |SubstituteNonAlnum(t, [c])| == |t|
    ensures forall i :: 0 <= i < |t| ==>
      SubstituteNonAlnum(t, [c])[i] == if IsAlnum(t[i]) then t[i] else c
  {
    if t != [] {
      SubstituteOneForOne(t[1..], c);
      var r := SubstituteNonAlnum(t, [c]);
      assert forall i :: 1 <= i < |t| ==> r[i] == SubstituteNonAlnum(t[1..], [c])[i - 1];
    }
  }

  /** A substitute with no alphanumerics of its own leaves the alphanumerics of `t` as they were, in order. */
  lemma {:induction false} SubstituteKeepsAlnum(t: string, sub: string)
    requires forall i :: 0 <= i < |sub| ==> !IsAlnum(sub[i])
    ensures AlnumOnly(SubstituteNonAlnum(t, sub)) == AlnumOnly(t)
  {
    if t != [] {
      var head := if IsAlnum(t[0]) then [t[0]] else sub;
      AlnumOnlyAppend(head, SubstituteNonAlnum(t[1..], sub));
      SubstituteKeepsAlnum(t[1..], sub);
      if !IsAlnum(t[0]) {
        SubAlnumOnlyEmpty(sub);
      }
    }
  }

  lemma {:induction false} SubAlnumOnlyEmpty(sub: string)
    requires forall i :: 0 <= i < |sub| ==> !IsAlnum(sub[i])
    ensures AlnumOnly(sub) == []
  {
    if sub != [] {
      SubAlnumOnlyEmpty(sub[1..]);
    }
  }

  /**
   * `normalize(s, ' ')`, the form used to match titles: the folded string
   * with each character that is not an ASCII letter or digit turned into a
   * space, and nothing else changed.
   */
  lemma NormalizeWithSpace(nfkd: string -> string, s: string)
    ensures var f := Fold(nfkd, s);
            var r := Normalize(nfkd, s, " ");
            && |r| == |f|
            && (forall i :: 0 <= i < |f| && IsAlnum(f[i]) ==> r[i] == f[i])
            && (forall i :: 0 <= i < |f| && !IsAlnum(f[i]) ==> r[i] == ' ')
            && AlnumOnly(r) == AlnumOnly(f)
  {
    SubstituteOneForOne(Fold(nfkd, s), ' ');
    SubstituteKeepsAlnum(Fold(nfkd, s), " ");
  }

  /** `s.replace(a, b)` for one character. */
  function ReplaceChar(s: string, a: char, b: char): string {
    seq(|s|, i requires 0 <= i < |s| => if s[i] == a then b else s[i])
  }

  lemma {:induction false} SubstituteWithoutSpace(t: string, sub: string)
    requires forall i :: 0 <= i < |sub| ==> sub[i] != ' '
    ensures forall i :: 0 <= i < |SubstituteNonAlnum(t, sub)| ==> SubstituteNonAlnum(t, sub)[i] != ' '
  {
    if t != [] {
      SubstituteWithoutSpace(t[1..], sub);
      var head := if IsAlnum(t[0]) then [t[0]] else sub;
      var r := SubstituteNonAlnum(t, sub);
      assert r == head + SubstituteNonAlnum(t[1..], sub);
      assert forall i :: |head| <= i < |r| ==> r[i] == SubstituteNonAlnum(t[1..], sub)[i - |head|];
    }
  }

  /** `normalize(' '.join(album_artist), '%20').replace(' ', '+')`. */
  function SearchString(nfkd: string -> string, key: AlbumKey): string {
    ReplaceChar(Normalize(nfkd, key.artist + " " + key.album, "%20"), ' ', '+')
  }

  /**
   * Every space has already become `%20` before `.replace(' ', '+')` runs,
   * so the replacement never changes the search string.
   */
  lemma SearchStringHasNoPlus(nfkd: string -> string, key: AlbumKey)
    ensures SearchString(nfkd, key) == Normalize(nfkd, key.artist + " " + key.album, "%20")
    ensures forall i :: 0 <= i < |SearchString(nfkd, key)| ==> SearchString(nfkd, key)[i] != ' '
  {
    var n := Normalize(nfkd, key.artist + " " + key.album, "%20");
    SubstituteWithoutSpace(Fold(nfkd, key.artist + " " + key.album), "%20");
    assert ReplaceChar(n, ' ', '+') == n;
  }

  function QueryUrl(searchString: string): string {
    "http://torrentproject.se/?s=" + searchString + "&out=json"
  }

  /** Different search strings give different URLs: the query names its search string. */
  lemma QueryUrlInjective(a: string, b: string)
    ensures QueryUrl(a) == QueryUrl(b) <==> a == b
  {
    if QueryUrl(a) == QueryUrl(b) {
      var n := |"http://torrentproject.se/?s="|;
      assert |a| == |b|;
      assert a == QueryUrl(a)[n..n + |a|];
    }
  }

  /** The `best_match` dict: `{'hash': ..., 'message': ...}`. */
  datatype Verdict = Verdict(hash: Option<string>, message: string)

  const NoResults: string := "no results returned from torrentproject"
  const NoExactMatch: string := "results found but they didn't match the artist and album exactly."
  const NoSeeds: string := "results found but none with seeds"
  const NoFormat: string := "results with seeds found but not in the desired format"
  const Success: string := "success"

  /** The category alias: `flac`, `ape` and `lossless` in any case mean `lossless`. */
  function ResolveCategory(category: string): (r: string)
    ensures r == "lossless" <==> Lower(category) in {"flac", "ape", "lossless"}
    ensures r != "lossless" ==> r == category
  {
    LowerIsIdentityOnLowercase("lossless");
    if Lower(category) in ["flac", "ape", "lossless"] then "lossless" else category
  }

  /** The hits whose lower-cased title holds `normalize(artist, ' ').lower()` and `normalize(album, ' ').lower()`. */
  function ExactMatches(nfkd: string -> string, hits: seq<Hit>, key: AlbumKey): seq<Hit> {
    KeepMatching(hits, Lower(Normalize(nfkd, key.artist, " ")), Lower(Normalize(nfkd, key.album, " ")))
  }

  /** `find_best_match(hits, category, artist_album)`. */
  function FindBestMatch(nfkd: string -> string, response: Response, category: string, key: AlbumKey): Verdict {
    if response.totalFound == "0" then Verdict(None, NoResults)
    else
      var results := ExactMatches(nfkd, response.hits, key);
      if results == [] then Verdict(None, NoExactMatch)
      else
        var ranked := RankBySeeds(results);
        if ranked[0].seeds == 0 then Verdict(None, NoSeeds)
        else match FirstInCategory(ranked, ResolveCategory(category))
          case None => Verdict(None, NoFormat)
          case Some(h) => Verdict(Some(h.torrentHash), Success)
  }

  /**
   * The selector, described without the sort: stop on `total_found == '0'`,
   * then on no exact match, then when no exact match has a seed; otherwise
   * succeed with the exact match of the resolved category that has the most
   * seeds (the earliest one on a tie), or fail when that category has none.
   */
  lemma FindBestMatchOutcome(nfkd: string -> string, response: Response, category: string, key: AlbumKey)
    ensures var r := FindBestMatch(nfkd, response, category, key);
            var exact := ExactMatches(nfkd, response.hits, key);
            if response.totalFound == "0" then r == Verdict(None, NoResults)
            else if exact == [] then r == Verdict(None, NoExactMatch)
            else if MaxSeeds(exact) == 0 then r == Verdict(None, NoSeeds)
            else match BestInCategory(exact, ResolveCategory(category))
              case None => r == Verdict(None, NoFormat)
              case Some(h) => r == Verdict(Some(h.torrentHash), Success)
  {
    var exact := ExactMatches(nfkd, response.hits, key);
    if response.totalFound != "0" && exact != [] {
      RankTopIsMax(exact);
      RankedFirstIsBest(exact, ResolveCategory(category));
    }
  }

  /**
   * A hash is returned only with the message `'success'`, and it belongs to a
   * hit that names both artist and album, is in the resolved category, and
   * has as many seeds as any such hit.
   */
  lemma FindBestMatchSound(nfkd: string -> string, response: Response, category: string, key: AlbumKey)
    ensures var r := FindBestMatch(nfkd, response, category, key);
            r.hash.Some? <==> r.message == Success
    ensures var r := FindBestMatch(nfkd, response, category, key);
            var exact := ExactMatches(nfkd, response.hits, key);
            r.hash.Some? ==>
              exists k :: 0 <= k < |exact| && exact[k].torrentHash == r.hash.value
                && exact[k].category == ResolveCategory(category)
                && (forall j :: 0 <= j < |exact| && exact[j].category == exact[k].category
                      ==> exact[j].seeds <= exact[k].seeds)
  {
    FindBestMatchOutcome(nfkd, response, category, key);
    var exact := ExactMatches(nfkd, response.hits, key);
    var k := BestInCategoryMeaning(exact, ResolveCategory(category));
  }

  /**
   * Artist "POLIÇA" (decomposed with a combining cedilla), album "Shulamith":
   * a lossless hit titled "Polica Shulamith FLAC" with seeds is found for
   * format "flac", and an mp3-only answer fails on the format.
   */
  lemma PolicaExample(nfkd: string -> string, lossless: Hit, mp3: Hit)
    requires nfkd("POLIÇA") == "POLIC\U{327}A" && nfkd("Shulamith") == "Shulamith"
    requires lossless == Hit("Polica Shulamith FLAC", "lossless", 12, "abc")
    requires mp3 == Hit("Polica Shulamith MP3", "mp3", 5, "def")
    ensures FindBestMatch(nfkd, Response("1", [lossless]), "flac", AlbumKey("POLIÇA", "Shulamith"))
         == Verdict(Some("abc"), Success)
    ensures FindBestMatch(nfkd, Response("1", [mp3]), "flac", AlbumKey("POLIÇA", "Shulamith"))
         == Verdict(None, NoFormat)
  {
    var key := AlbumKey("POLIÇA", "Shulamith");
    PolicaNeedles(nfkd);
    PolicaTitles();
    FlacIsLossless();
    SingleHit(nfkd, lossless, "flac", key);
    SingleHit(nfkd, mp3, "flac", key);
  }

  /** With one seeded exact match, the verdict depends only on its category. */
  lemma SingleHit(nfkd: string -> string, h: Hit, category: string, key: AlbumKey)
    requires TitleHasBoth(h, Lower(Normalize(nfkd, key.artist, " ")), Lower(Normalize(nfkd, key.album, " ")))
    requires h.seeds != 0
    ensures FindBestMatch(nfkd, Response("1", [h]), category, key)
         == if h.category == ResolveCategory(category) then Verdict(Some(h.torrentHash), Success) else Verdict(None, NoFormat)
  {
    assert [h][1..] == [];
    assert ExactMatches(nfkd, [h], key) == [h];
    assert RankBySeeds([h]) == Insert(h, []) == [h];
  }

  lemma PolicaNeedles(nfkd: string -> string)
    requires nfkd("POLIÇA") == "POLIC\U{327}A" && nfkd("Shulamith") == "Shulamith"
    ensures Lower(Normalize(nfkd, "POLIÇA", " ")) == "polica"
    ensures Lower(Normalize(nfkd, "Shulamith", " ")) == "shulamith"
  {
    CedillaDropped();
    WordsAreAlnum();
    NeedleOf(nfkd, "POLIÇA", "POLICA");
    NeedleOf(nfkd, "Shulamith", "Shulamith");
    LowerWords();
  }

  lemma NeedleOf(nfkd: string -> string, s: string, w: string)
    requires AsciiOnly(nfkd(s)) == w
    requires forall i :: 0 <= i < |w| ==> IsAlnum(w[i])
    ensures Normalize(nfkd, s, " ") == w
  {
    SubstituteKeepsAlnumString(w, " ");
  }

  lemma WordsAreAlnum()
    ensures forall i :: 0 <= i < |"POLICA"| ==> IsAlnum("POLICA"[i])
    ensures forall i :: 0 <= i < |"Shulamith"| ==> IsAlnum("Shulamith"[i])
    ensures AsciiOnly("Shulamith") == "Shulamith"
  {
    assert IsAscii("Shulamith");
  }

  lemma LowerWords()
    ensures Lower("POLICA") == "polica"
    ensures Lower("Shulamith") == "shulamith"
  {
  }

  lemma CedillaDropped()
    ensures AsciiOnly("POLIC\U{327}A") == "POLICA"
  {
    var d := "POLIC\U{327}A";
    assert d[1..] == "OLIC\U{327}A" && d[2..] == "LIC\U{327}A" && d[3..] == "IC\U{327}A";
    assert d[4..] == "C\U{327}A" && d[5..] == "\U{327}A" && d[6..] == "A";
    assert AsciiOnly("A") == "A";
    assert AsciiOnly("\U{327}A") == "A";
  }

  lemma {:induction false} SubstituteKeepsAlnumString(t: string, sub: string)
    requires forall i :: 0 <= i < |t| ==> IsAlnum(t[i])
    ensures SubstituteNonAlnum(t, sub) == t
  {
    if t != [] {
      SubstituteKeepsAlnumString(t[1..], sub);
    }
  }

  lemma PolicaTitles()
    ensures TitleHasBoth(Hit("Polica Shulamith FLAC", "", 0, ""), "polica", "shulamith")
    ensures TitleHasBoth(Hit("Polica Shulamith MP3", "", 0, ""), "polica", "shulamith")
  {
    var t := Lower("Polica Shulamith FLAC");
    assert t[0..6] == "polica" && t[7..16] == "shulamith";
    assert OccursAt(t, "polica", 0) && OccursAt(t, "shulamith", 7);
    var u := Lower("Polica Shulamith MP3");
    assert u[0..6] == "polica" && u[7..16] == "shulamith";
    assert OccursAt(u, "polica", 0) && OccursAt(u, "shulamith", 7);
  }

  lemma FlacIsLossless()
    ensures ResolveCategory("flac") == "lossless"
  {
    LowerIsIdentityOnLowercase("flac");
  }

  const Separator: string := " - "

  /**
   * `artist_album_type(s)`: `s.split(' - ')` must give exactly two pieces and
   * the album piece must be non-empty; any other input is an argument error.
   */
  function ParseArtistAlbum(s: string): Option<AlbumKey> {
    var parts := Split(s, Separator);
    if |parts| == 2 && parts[1] != "" then Some(AlbumKey(parts[0], parts[1])) else None
  }

  /**
   * An argument is accepted exactly when it is `artist + ' - ' + album` with
   * the separator's first occurrence right after the artist, no further
   * separator in the album, and a non-empty album; the artist may be empty.
   */
  lemma ParseArtistAlbumMeaning(s: string, artist: string, album: string)
    ensures ParseArtistAlbum(s) == Some(AlbumKey(artist, album)) <==>
      && s == artist + Separator + album
      && Find(s, Separator) == Some(|artist|)
      && !Contains(album, Separator)
      && album != ""
  {
    var parts := Split(s, Separator);
    FindNoneIsNotContains(album, Separator);
    if ParseArtistAlbum(s) == Some(AlbumKey(artist, album)) {
      match Find(s, Separator)
      case None =>
      case Some(i) =>
        var rest := s[i + 3..];
        assert parts == [s[..i]] + Split(rest, Separator);
        assert Split(rest, Separator) == [album];
        SplitJoin(s, Separator);
        SplitPiecesAreFree(s, Separator);
        assert parts[1] == album;
    }
    if && s == artist + Separator + album
       && Find(s, Separator) == Some(|artist|)
       && !Contains(album, Separator)
       && album != ""
    {
      assert s[..|artist|] == artist;
      assert s[|artist| + 3..] == album;
      assert Split(album, Separator) == [album];
    }
  }

  /** The pure part of `get_gmusic_playlist`: None stands for the StopIteration that escapes when no name matches. */
  function PlaylistAlbums(playlists: seq<Playlist>, title: string): (r: Option<set<AlbumKey>>)
    ensures r.None? <==> forall j :: 0 <= j < |playlists| ==> playlists[j].name != title
    ensures r.Some? ==>
      exists i :: 0 <= i < |playlists| && playlists[i].name == title
        && (forall j :: 0 <= j < i ==> playlists[j].name != title)
        && r.value == AlbumKeysOf(playlists[i].tracks)
  {
    match FirstNamed(playlists, title, false)
    case None => None
    case Some(i) => Some(AlbumKeysOf(playlists[i].tracks))
  }

  /** An entry of `hash_list`. */
  datatype Found = Found(artist: string, album: string, title: string, hash: string)

  /** An entry of `not_found_list`. */
  datatype NotFound = NotFound(title: string, searchString: string, message: string)

  /** What one album contributes: its `hash_list` entry or its `not_found_list` entry. */
  function AlbumOutcome(nfkd: string -> string, search: string -> Response, category: string, key: AlbumKey)
    : Result<Found, NotFound>
  {
    var text := key.artist + " - " + key.album;
    var searchString := SearchString(nfkd, key);
    var best := FindBestMatch(nfkd, search(QueryUrl(searchString)), category, key);
    if best.hash.Some? then Ok(Found(key.artist, key.album, text, best.hash.value))
    else Err(NotFound(text, searchString, best.message))
  }

  /** `hash_list` after the loop has handled `albums`. */
  function HashList(nfkd: string -> string, search: string -> Response, category: string, albums: seq<AlbumKey>)
    : seq<Found>
  {
    if albums == [] then []
    else
      var before := HashList(nfkd, search, category, albums[..|albums| - 1]);
      match AlbumOutcome(nfkd, search, category, albums[|albums| - 1])
      case Ok(f) => before + [f]
      case Err(_) => before
  }

  /** `not_found_list` after the loop has handled `albums`. */
  function NotFoundList(nfkd: string -> string, search: string -> Response, category: string, albums: seq<AlbumKey>)
    : seq<NotFound>
  {
    if albums == [] then []
    else
      var before := NotFoundList(nfkd, search, category, albums[..|albums| - 1]);
      match AlbumOutcome(nfkd, search, category, albums[|albums| - 1])
      case Ok(_) => before
      case Err(n) => before + [n]
  }

  /**
   * The search loop of `get_torrent_hashes`, with the index supplied as
   * `search` (query URL to parsed response) and the album set given in its
   * iteration order.
   */
  method GetTorrentHashes(nfkd: string -> string, albums: seq<AlbumKey>, category: string, search: string -> Response)
    returns (hashList: seq<Found>, notFoundList: seq<NotFound>)
    ensures hashList == HashList(nfkd, search, category, albums)
    ensures notFoundList == NotFoundList(nfkd, search, category, albums)
  {
    hashList, notFoundList := [], [];
    var i := 0;
    while i < |albums|
      invariant 0 <= i <= |albums|
      invariant hashList == HashList(nfkd, search, category, albums[..i])
      invariant notFoundList == NotFoundList(nfkd, search, category, albums[..i])
    {
      var key := albums[i];
      var text := key.artist + " - " + key.album;
      var searchString := SearchString(nfkd, key);
      var hits := search(QueryUrl(searchString));
      var best := FindBestMatch(nfkd, hits, category, key);
      if best.hash.Some? {
        hashList := hashList + [Found(key.artist, key.album, text, best.hash.value)];
      } else {
        notFoundList := notFoundList + [NotFound(text, searchString, best.message)];
      }
      assert albums[..i + 1][..i] == albums[..i];
      i := i + 1;
    }
    assert albums[..i] == albums;
  }

  /**
   * Every album lands in exactly one of the two lists: a found entry carries
   * the hash the selector returned for that album, a missed one its message.
   */
  lemma {:induction false} HashListPartition(nfkd: string -> string, search: string -> Response, category: string,
                                             albums: seq<AlbumKey>)
    ensures |HashList(nfkd, search, category, albums)| + |NotFoundList(nfkd, search, category, albums)| == |albums|
    ensures forall f :: f in HashList(nfkd, search, category, albums) ==>
      exists k :: k in albums && AlbumOutcome(nfkd, search, category, k) == Ok(f)
        && FindBestMatch(nfkd, search(QueryUrl(SearchString(nfkd, k))), category, k).hash == Some(f.hash)
    ensures forall n :: n in NotFoundList(nfkd, search, category, albums) ==>
      exists k :: k in albums && AlbumOutcome(nfkd, search, category, k) == Err(n)
  {
    if albums != [] {
      var init := albums[..|albums| - 1];
      HashListPartition(nfkd, search, category, init);
      assert forall k :: k in init ==> k in albums;
    }
  }

  /** `f` applied to each album, in loop order. */
  function MapAlbums(f: AlbumKey -> Result<Found, NotFound>, albums: seq<AlbumKey>): (r: seq<Result<Found, NotFound>>)
    ensures |r| == |albums|
  {
    if albums == [] then [] else MapAlbums(f, albums[..|albums| - 1]) + [f(albums[|albums| - 1])]
  }

  lemma {:induction false} MapAlbumsAt(f: AlbumKey -> Result<Found, NotFound>, albums: seq<AlbumKey>, i: nat)
    requires i < |albums|
    ensures MapAlbums(f, albums)[i] == f(albums[i])
  {
    var init := albums[..|albums| - 1];
    if i < |init| {
      MapAlbumsAt(f, init, i);
      assert init[i] == albums[i];
    }
  }

  /** The outcome of each album, in loop order. */
  function Outcomes(nfkd: string -> string, search: string -> Response, category: string, albums: seq<AlbumKey>)
    : seq<Result<Found, NotFound>>
  {
    MapAlbums(k => AlbumOutcome(nfkd, search, category, k), albums)
  }

  /** The found entries of a sequence of outcomes, in order. */
  function Oks(rs: seq<Result<Found, NotFound>>): seq<Found> {
    if rs == [] then []
    else Oks(rs[..|rs| - 1]) + (match rs[|rs| - 1] case Ok(f) => [f] case Err(_) => [])
  }

  /** The missed entries of a sequence of outcomes, in order. */
  function Errs(rs: seq<Result<Found, NotFound>>): seq<NotFound> {
    if rs == [] then []
    else Errs(rs[..|rs| - 1]) + (match rs[|rs| - 1] case Ok(_) => [] case Err(n) => [n])
  }

  /** The entry an outcome puts in one of the two lists is there. */
  predicate Listed(outcome: Result<Found, NotFound>, hashList: seq<Found>, notFoundList: seq<NotFound>) {
    match outcome
    case Ok(f) => f in hashList
    case Err(n) => n in notFoundList
  }

  /** Splitting outcomes into found and missed entries drops none of them. */
  lemma {:induction false} OksErrsComplete(rs: seq<Result<Found, NotFound>>)
    ensures |Oks(rs)| + |Errs(rs)| == |rs|
    ensures forall i :: 0 <= i < |rs| ==> Listed(rs[i], Oks(rs), Errs(rs))
  {
    if rs != [] {
      var init := rs[..|rs| - 1];
      OksErrsComplete(init);
      forall i | 0 <= i < |rs|
        ensures Listed(rs[i], Oks(rs), Errs(rs))
      {
        if i < |init| {
          assert rs[i] == init[i];
          assert Listed(init[i], Oks(init), Errs(init));
        }
      }
    }
  }

  /** The two loop lists are the found and missed entries of the albums' outcomes. */
  lemma {:induction false} ListsAreOutcomes(nfkd: string -> string, search: string -> Response, category: string,
                                            albums: seq<AlbumKey>)
    ensures HashList(nfkd, search, category, albums) == Oks(Outcomes(nfkd, search, category, albums))
    ensures NotFoundList(nfkd, search, category, albums) == Errs(Outcomes(nfkd, search, category, albums))
  {
    if albums != [] {
      var init := albums[..|albums| - 1];
      ListsAreOutcomes(nfkd, search, category, init);
      var rs := Outcomes(nfkd, search, category, albums);
      assert rs[..|rs| - 1] == Outcomes(nfkd, search, category, init);
      assert rs[|rs| - 1] == AlbumOutcome(nfkd, search, category, albums[|albums| - 1]);
    }
  }

  /** No album is dropped: each album's own entry is in the list its outcome names. */
  lemma HashListComplete(nfkd: string -> string, search: string -> Response, category: string,
                         albums: seq<AlbumKey>, i: nat)
    requires i < |albums|
    ensures Listed(AlbumOutcome(nfkd, search, category, albums[i]),
                   HashList(nfkd, search, category, albums), NotFoundList(nfkd, search, category, albums))
  {
    ListsAreOutcomes(nfkd, search, category, albums);
    OksErrsComplete(Outcomes(nfkd, search, category, albums));
    MapAlbumsAt(k => AlbumOutcome(nfkd, search, category, k), albums, i);
  }
}
