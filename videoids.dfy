/**
 * Which video the page shows: the id the player hands over in its initial
 * response, else the `v` query parameter of the page address, else the
 * part after `/shorts/` in its path.
 */
module VideoIds {
  import opened Wrappers
  import opened JsText

  /**
   * The parts of `location.href` the script reads, as `new URL(...)` exposes
   * them: the decoded query as name/value pairs in order, and the path.
   */
  datatype Location = Location(query: seq<(string, string)>, pathname: string)

  /** `url.searchParams.get(name)`: the value of the first pair with that name. */
  function QueryGet(query: seq<(string, string)>, name: string): (r: Option<string>)
    ensures r.Some? ==> (name, r.value) in query
    ensures r.None? <==> forall i :: 0 <= i < |query| ==> query[i].0 != name
  {
    if |query| == 0 then None
    else if query[0].0 == name then Some(query[0].1)
    else QueryGet(query[1..], name)
  }

  /** The first pair with the name decides, whatever pairs with that name follow it. */
  lemma {:induction false} QueryGetFirst(query: seq<(string, string)>, name: string, i: nat)
    requires i < |query| && query[i].0 == name
    requires forall k :: 0 <= k < i ==> query[k].0 != name
    ensures QueryGet(query, name) == Some(query[i].1)
  {
    if i > 0 {
      QueryGetFirst(query[1..], name, i - 1);
    }
  }

  /** `url.pathname.split('/').filter(Boolean)`. */
  function PathParts(pathname: string): (parts: seq<string>)
    ensures forall i :: 0 <= i < |parts| ==> parts[i] != "" && '/' !in parts[i]
  {
    var parts := NonEmpty(Split(pathname, '/'));
    assert forall i :: 0 <= i < |parts| ==> parts[i] in parts;
    parts
  }

  /** `getVideoIdFromUrl()`. */
  function VideoIdFromUrl(loc: Location): (r: Option<string>)
    ensures r.Some? ==> r.value != ""
  {
    var v := QueryGet(loc.query, "v");
    if v.Some? && v.value != "" then v
    else
      var parts := PathParts(loc.pathname);
      if |parts| >= 2 && parts[0] == "shorts" then Some(parts[1])
      else None
  }

  /** `getVideoId()`: a non-empty id from the player wins over the address. */
  function VideoId(playerId: Option<string>, loc: Location): (r: Option<string>)
    ensures playerId.Some? && playerId.value != "" ==> r == playerId
    ensures (playerId.None? || playerId.value == "") ==> r == VideoIdFromUrl(loc)
    ensures r.Some? ==> r.value != ""
  {
    if playerId.Some? && playerId.value != "" then playerId else VideoIdFromUrl(loc)
  }

  /** A non-empty `v` parameter is the id, whatever the path. */
  lemma QueryParameterWins(loc: Location, v: string)
    requires QueryGet(loc.query, "v") == Some(v) && v != ""
    ensures VideoIdFromUrl(loc) == Some(v)
  {
  }

  /**
   * Without a usable `v`, the address `/shorts/<id>`, optionally followed by
   * more path, names the video `<id>`.
   */
  lemma ShortsPath(query: seq<(string, string)>, id: string, more: string)
    requires QueryGet(query, "v").None? || QueryGet(query, "v") == Some("")
    requires id != "" && '/' !in id
    requires more == "" || more[0] == '/'
    ensures VideoIdFromUrl(Location(query, "/shorts/" + id + more)) == Some(id)
  {
    var after := ShortsSplit(id, more);
    ShortsParts(id, after);
  }

  /** `"/shorts/" + id + more` splits into "", "shorts", `id` and the pieces of `more`. */
  lemma ShortsSplit(id: string, more: string) returns (after: seq<string>)
    requires '/' !in id
    requires more == "" || more[0] == '/'
    ensures Split("/shorts/" + id + more, '/') == ["", "shorts", id] + after
  {
    var tail := "shorts/" + id + more;
    assert "/shorts/" + id + more == "" + ['/'] + tail;
    SplitAfterPiece("", '/', tail);
    assert tail == "shorts" + ['/'] + (id + more);
    SplitAfterPiece("shorts", '/', id + more);
    if more == "" {
      assert id + more == id;
      SplitWithoutSeparator(id, '/');
      after := [];
    } else {
      assert id + more == id + ['/'] + more[1..];
      SplitAfterPiece(id, '/', more[1..]);
      after := Split(more[1..], '/');
    }
  }

  /** Filtering drops the leading empty piece and keeps "shorts" and the non-empty id. */
  lemma ShortsParts(id: string, after: seq<string>)
    requires id != ""
    ensures NonEmpty(["", "shorts", id] + after) == ["shorts", id] + NonEmpty(after)
  {
    var p0 := ["", "shorts", id] + after;
    var p1 := ["shorts", id] + after;
    var p2 := [id] + after;
    assert p0[1..] == p1 && p1[1..] == p2 && p2[1..] == after;
    assert NonEmpty(p2) == [id] + NonEmpty(after);
    assert NonEmpty(p1) == ["shorts"] + NonEmpty(p2);
    assert NonEmpty(p0) == NonEmpty(p1);
  }

  /** The id is absent exactly when neither the query nor a `/shorts/` path names one. */
  lemma NoIdFromUrl(loc: Location)
    ensures VideoIdFromUrl(loc).None? <==>
      (QueryGet(loc.query, "v").None? || QueryGet(loc.query, "v") == Some("")) &&
      !(|PathParts(loc.pathname)| >= 2 && PathParts(loc.pathname)[0] == "shorts")
  {
  }
}
