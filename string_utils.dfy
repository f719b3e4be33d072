/** Extraction of the user name and playlist title from a playlist URL. */
module StringUtils {
  import opened Wrappers
  import opened PyStr

  /** A match of the playlist-URL pattern: its four capturing groups. The third
      group sits under a `*` and may not take part in the match. The regular
      expression itself is not modelled. */
  datatype UrlMatch = UrlMatch(base: string, user: string, kind: Option<string>, title: string)

  /** `str(group)` for a group that took part in the match or did not. */
  function GroupText(g: Option<string>): string {
    match g
    case Some(s) => s
    case None => "None"
  }

  /** The capturing groups of `re.search`; a URL that does not match leaves
      `None`, whose `.groups()` raises AttributeError. */
  function GetAllCapturingGroups(search: Option<UrlMatch>): (r: Result<seq<string>, PyException>)
    ensures r.Success? <==> search.Some?
    ensures r.Failure? ==> r.error == AttributeError
    ensures r.Success? ==> |r.value| == 4
    ensures r.Success? ==> r.value[1] == search.value.user && r.value[3] == search.value.title
    ensures r.Success? && search.value.kind.None? ==> r.value[2] == "None"
  {
    match search
    case None => Failure(AttributeError)
    case Some(m) => Success([m.base, m.user, GroupText(m.kind), m.title])
  }

  /** The user name: the second group with every "-" turned into "_". */
  function GetUsername(groups: seq<string>): (r: string)
    requires |groups| >= 2
    ensures |r| == |groups[1]|
    ensures '-' !in r
    ensures forall i :: 0 <= i < |r| ==> r[i] == (if groups[1][i] == '-' then '_' else groups[1][i])
  {
    ReplaceCharRemovesAll(groups[1], '-', '_');
    ReplaceChar(groups[1], '-', '_')
  }

  /** Feeding a user name back in as the second group gives it back unchanged. */
  lemma GetUsernameIdempotent(groups: seq<string>)
    requires |groups| >= 2
    ensures GetUsername(groups[1 := GetUsername(groups)]) == GetUsername(groups)
  {
    ReplaceCharRemovesAll(groups[1], '-', '_');
  }

  /** The playlist title: "ratings" for the "rated" page, otherwise the last
      group with every "-" turned into "_". */
  function GetPlaylistTitle(groups: seq<string>): (r: string)
    requires |groups| >= 1
    ensures groups[|groups| - 1] == "rated" ==> r == "ratings"
    ensures groups[|groups| - 1] != "rated" ==> r == ReplaceChar(groups[|groups| - 1], '-', '_')
    ensures '-' !in r
  {
    var last := groups[|groups| - 1];
    ReplaceCharRemovesAll(last, '-', '_');
    if last == "rated" then "ratings" else ReplaceChar(last, '-', '_')
  }

  /** Feeding a title back in as the last group gives it back unchanged: a
      replaced title is never "rated" unless the group already was. */
  lemma GetPlaylistTitleIdempotent(groups: seq<string>)
    requires |groups| >= 1
    ensures GetPlaylistTitle(groups[|groups| - 1 := GetPlaylistTitle(groups)]) == GetPlaylistTitle(groups)
  {
    var last := groups[|groups| - 1];
    var t := GetPlaylistTitle(groups);
    if last == "rated" {
      assert "ratings" != "rated";
      assert ReplaceChar("ratings", '-', '_') == "ratings";
    } else {
      ReplaceCharRemovesAll(last, '-', '_');
      if t == "rated" {
        ReplaceCharFixedPoint(last, t, '-', '_');
        assert false;
      }
    }
  }
}
