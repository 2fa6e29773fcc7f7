/**
 * The pure part of reading a playlist: pick the playlist by name from the
 * records the music service returned, and collect the distinct
 * (album artist, album) pairs of its entries that carry a track.
 */
module Playlists {

  import opened Wrappers
  import opened Text

  /** One album to search for: `(albumArtist, album)`. */
  datatype AlbumKey = AlbumKey(artist: string, album: string)

  datatype Track = Track(albumArtist: string, album: string)

  /** A playlist entry; entries without a `'track'` key have `track == None`. */
  datatype PlaylistEntry = PlaylistEntry(track: Option<Track>)

  datatype Playlist = Playlist(name: string, tracks: seq<PlaylistEntry>)

  predicate NameMatches(name: string, wanted: string, ignoreCase: bool) {
    if ignoreCase then Lower(name) == Lower(wanted) else name == wanted
  }

  /** `next(p for p in playlists if <name matches>)`: the index of the first match, None for StopIteration. */
  function FirstNamed(playlists: seq<Playlist>, wanted: string, ignoreCase: bool): (r: Option<nat>)
    ensures r.Some? ==> r.value < |playlists| && NameMatches(playlists[r.value].name, wanted, ignoreCase)
    ensures r.Some? ==> forall j :: 0 <= j < r.value ==> !NameMatches(playlists[j].name, wanted, ignoreCase)
    ensures r.None? <==> forall j :: 0 <= j < |playlists| ==> !NameMatches(playlists[j].name, wanted, ignoreCase)
  {
    if playlists == [] then None
    else if NameMatches(playlists[0].name, wanted, ignoreCase) then Some(0)
    else match FirstNamed(playlists[1..], wanted, ignoreCase)
      case None => None
      case Some(i) => Some(i + 1)
  }

  /** The set comprehension over the entries that have a track. */
  function AlbumKeysOf(entries: seq<PlaylistEntry>): set<AlbumKey> {
    set i | 0 <= i < |entries| && entries[i].track.Some? ::
      AlbumKey(entries[i].track.value.albumArtist, entries[i].track.value.album)
  }

  /**
   * The album set holds exactly the (album artist, album) pairs of the
   * entries that carry a track, each once, so it is no larger than the playlist.
   */
  lemma {:induction false} AlbumKeysMeaning(entries: seq<PlaylistEntry>)
    ensures forall k :: k in AlbumKeysOf(entries) <==>
      exists i :: 0 <= i < |entries| && entries[i].track.Some?
        && k == AlbumKey(entries[i].track.value.albumArtist, entries[i].track.value.album)
    ensures |AlbumKeysOf(entries)| <= |entries|
  {
    if entries == [] {
      assert AlbumKeysOf(entries) == {};
    } else {
      var init := entries[..|entries| - 1];
      var last := entries[|entries| - 1];
      AlbumKeysMeaning(init);
      var extra: set<AlbumKey> := if last.track.Some?
        then {AlbumKey(last.track.value.albumArtist, last.track.value.album)} else {};
      assert forall i :: 0 <= i < |init| ==> init[i] == entries[i];
      assert AlbumKeysOf(entries) == AlbumKeysOf(init) + extra;
      assert |extra| <= 1;
    }
  }
}
