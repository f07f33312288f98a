/** The crawler's request shaping (core/crawler.py): the list-page path, the
    anime id found in a link, and get_episode_video, which asks the play API
    for an episode, digs the video URL out of the JSON payload, completes it
    and hands it to the downloader.

    The site's replies go through Network.MakeRequest. Decoding the reply
    body as JSON, reading the a.swa links of an HTML fragment (BeautifulSoup)
    and download_video itself are parameters: the model takes what they
    return. */
module Crawler {
  import opened Strings
  import opened Network

  /** A decoded JSON value (numbers as integers). */
  datatype Json = JNull | JBool(b: bool) | JNum(n: int) | JStr(s: string) | JArr(items: seq<Json>)
                | JObj(fields: map<string, Json>)

  /** Python truthiness of a decoded value. */
  predicate Truthy(j: Json) {
    match j
    case JNull => false
    case JBool(b) => b
    case JNum(n) => n != 0
    case JStr(s) => s != ""
    case JArr(items) => |items| > 0
    case JObj(fields) => |fields| > 0
  }

  /** get_anime_list's path: /list for page 1, /list?page=N otherwise. */
  function ListPath(page: int): (p: string)
    ensures page == 1 <==> p == "/list"
    ensures StartsWith(p, "/list")
  {
    if page == 1 then "/list"
    else
      var p := "/list?page=" + IntToString(page);
      assert p[..5] == "/list";
      p
  }

  /** Different positive pages ask for different paths. */
  lemma ListPathInjective(p: nat, q: nat)
    requires p >= 1 && q >= 1 && p != q
    ensures ListPath(p) != ListPath(q)
  {
    if p != 1 && q != 1 && ListPath(p) == ListPath(q) {
      var pre := "/list?page=";
      assert ListPath(p)[|pre|..] == NatToString(p);
      assert ListPath(q)[|pre|..] == NatToString(q);
      NatToStringInjective(p, q);
    }
  }

  /** A regular-expression word character (\w), restricted to ASCII. */
  predicate IsWord(c: char) {
    'a' <= c <= 'z' || 'A' <= c <= 'Z' || '0' <= c <= '9' || c == '_'
  }

  /** The longest run of word characters at the start of s. */
  function WordRun(s: string): (r: string)
    ensures StartsWith(s, r)
    ensures forall i :: 0 <= i < |r| ==> IsWord(r[i])
    ensures |r| == |s| || !IsWord(s[|r|])
  {
    if |s| == 0 || !IsWord(s[0]) then ""
    else
      var rest := WordRun(s[1..]);
      assert s == [s[0]] + s[1..];
      [s[0]] + rest
  }

  const Show := "/show/"

  /** re.search(r'/show/([\w\d]+)(?:\.html)?', s).group(1): the word run
      after the leftmost /show/ that is followed by a word character. */
  function SearchShow(s: string): (r: Option<string>)
    ensures r.Some? ==> |r.value| > 0 && (forall i :: 0 <= i < |r.value| ==> IsWord(r.value[i]))
    ensures r.Some? ==> Contains(s, Show + r.value)
    decreases |s|
  {
    if |s| <= |Show| then None
    else if s[..|Show|] == Show && IsWord(s[|Show|]) then
      var id := WordRun(s[|Show|..]);
      assert s[..|Show| + |id|] == Show + id by {
        assert s[|Show|..][..|id|] == id;
      }
      ContainsAt(s, Show + id, 0);
      Some(id)
    else
      match SearchShow(s[1..])
      case None => None
      case Some(id) =>
        ContainsShift(s, Show + id);
        Some(id)
  }

  /** At index i of s stands /show/ followed by a word character: a place the
      pattern matches. */
  predicate ShowAt(s: string, i: int) {
    0 <= i && i + |Show| < |s| && s[i..i + |Show|] == Show && IsWord(s[i + |Show|])
  }

  /** The pattern matches at i and nowhere to the left of it. */
  predicate FirstShow(s: string, i: int) {
    ShowAt(s, i) && forall k :: 0 <= k < i ==> !ShowAt(s, k)
  }

  /** Dropping the first character moves every match one place left. */
  lemma ShowAtShift(s: string, i: int)
    requires |s| > 0 && 0 <= i
    ensures ShowAt(s, i + 1) <==> ShowAt(s[1..], i)
  {
    if i + 1 + |Show| < |s| {
      assert s[i + 1..i + 1 + |Show|] == s[1..][i..i + |Show|];
      assert s[i + 1 + |Show|] == s[1..][i + |Show|];
    }
  }

  /** SearchShow is re.search's leftmost match: None exactly when the pattern
      matches nowhere, and otherwise the word run after its leftmost match. */
  lemma {:induction false} SearchShowLeftmost(s: string)
    ensures SearchShow(s).None? <==> forall i :: !ShowAt(s, i)
    ensures SearchShow(s).Some? ==>
              exists i :: FirstShow(s, i) && SearchShow(s).value == WordRun(s[i + |Show|..])
    decreases |s|
  {
    if |s| <= |Show| {
    } else if s[..|Show|] == Show && IsWord(s[|Show|]) {
      assert ShowAt(s, 0) && FirstShow(s, 0);
    } else {
      assert !ShowAt(s, 0);
      var t := s[1..];
      SearchShowLeftmost(t);
      forall i | ShowAt(s, i)
        ensures ShowAt(t, i - 1)
      {
        ShowAtShift(s, i - 1);
      }
      if SearchShow(t).Some? {
        var i :| FirstShow(t, i) && SearchShow(t).value == WordRun(t[i + |Show|..]);
        ShowAtShift(s, i);
        forall k | 0 <= k < i + 1
          ensures !ShowAt(s, k)
        {
          if k > 0 {
            ShowAtShift(s, k - 1);
          }
        }
        assert t[i + |Show|..] == s[i + 1 + |Show|..];
        assert FirstShow(s, i + 1);
      }
    }
  }

  lemma ContainsShift(s: string, p: string)
    requires |s| > 0 && Contains(s[1..], p)
    ensures Contains(s, p)
  {
    var k := IndexOf(s[1..], p).value;
    assert s[k + 1..k + 1 + |p|] == s[1..][k..k + |p|];
    ContainsAt(s, p, k + 1);
  }

  /** extract_anime_id: None for an empty link, otherwise the id after
      /show/, if any. */
  function ExtractAnimeId(href: string): (r: Option<string>)
    ensures r.None? <==> href == "" || forall i :: !ShowAt(href, i)
    ensures r.Some? ==> exists i :: FirstShow(href, i) && r.value == WordRun(href[i + |Show|..])
    ensures r.Some? ==> |r.value| > 0 && Contains(href, Show + r.value)
  {
    if href == "" then None else SearchShowLeftmost(href); SearchShow(href)
  }

  /** A show link gives its id back. */
  lemma ExtractAnimeIdRoundTrip(id: string, suffix: string)
    requires |id| > 0 && forall i :: 0 <= i < |id| ==> IsWord(id[i])
    requires |suffix| == 0 || !IsWord(suffix[0])
    ensures ExtractAnimeId(Show + id + suffix) == Some(id)
  {
    var s := Show + id + suffix;
    assert s[..|Show|] == Show;
    assert s[|Show|] == id[0];
    WordRunOf(id, suffix);
    assert s[|Show|..] == id + suffix;
  }

  lemma {:induction false} WordRunOf(id: string, suffix: string)
    requires forall i :: 0 <= i < |id| ==> IsWord(id[i])
    requires |suffix| == 0 || !IsWord(suffix[0])
    ensures WordRun(id + suffix) == id
    decreases |id|
  {
    if |id| > 0 {
      assert (id + suffix)[1..] == id[1..] + suffix;
      WordRunOf(id[1..], suffix);
      assert id == [id[0]] + id[1..];
    }
  }

  /** The play API path of an episode. */
  function ApiPath(animeId: string, episode: string): (p: string)
    ensures StartsWith(p, "/_get_plays/")
  {
    var p := "/_get_plays/" + animeId + "/ep" + episode;
    assert p[..|"/_get_plays/"|] == "/_get_plays/";
    p
  }

  /** A source that carries the key: a (non-empty) object holding it. */
  predicate HasKey(j: Json, key: string) {
    j.JObj? && key in j.fields
  }

  /** The index of the first source that carries the key. */
  function FirstWith(sources: seq<Json>, key: string): (r: Option<nat>)
    ensures r.Some? ==> r.value < |sources| && HasKey(sources[r.value], key) &&
                        forall j :: 0 <= j < r.value ==> !HasKey(sources[j], key)
    ensures r.None? ==> forall j :: 0 <= j < |sources| ==> !HasKey(sources[j], key)
    decreases |sources|
  {
    if |sources| == 0 then None
    else if HasKey(sources[0], key) then Some(0)
    else match FirstWith(sources[1..], key)
      case None => None
      case Some(i) => Some(i + 1)
  }

  /** The loop that takes the key's value from the first source carrying it
      and breaks. */
  method FirstValue(sources: seq<Json>, key: string) returns (v: Option<Json>)
    ensures FirstWith(sources, key).None? ==> v.None?
    ensures FirstWith(sources, key).Some? ==> v == Some(sources[FirstWith(sources, key).value].fields[key])
  {
    v := None;
    var i := 0;
    while i < |sources|
      invariant 0 <= i <= |sources|
      invariant forall j :: 0 <= j < i ==> !HasKey(sources[j], key)
    {
      var source := sources[i];
      if Truthy(source) && source.JObj? && key in source.fields {
        v := Some(source.fields[key]);
        FirstWithIs(sources, key, i);
        return;
      }
      i := i + 1;
    }
  }

  lemma {:induction false} FirstWithIs(sources: seq<Json>, key: string, i: nat)
    requires i < |sources| && HasKey(sources[i], key)
    requires forall j :: 0 <= j < i ==> !HasKey(sources[j], key)
    ensures FirstWith(sources, key) == Some(i)
    decreases i
  {
    if i > 0 {
      FirstWithIs(sources[1..], key, i - 1);
    }
  }

  /** The value taken from the payload: a dict's video_plays list gives the
      play_data of its first source having one; a list gives the url of its
      first source having one; anything else gives nothing. */
  function PayloadValue(payload: Json): Option<Json> {
    if payload.JObj? && "video_plays" in payload.fields && payload.fields["video_plays"].JArr? then
      var sources := payload.fields["video_plays"].items;
      match FirstWith(sources, "play_data")
      case None => None
      case Some(i) => Some(sources[i].fields["play_data"])
    else if payload.JArr? then
      match FirstWith(payload.items, "url")
      case None => None
      case Some(i) => Some(payload.items[i].fields["url"])
    else None
  }

  const PlayerPrefix := "/_player_x_/"

  /** The video URL candidate: the payload value, or, when that is falsy and
      the payload is a dict with html_content, the first a.swa link holding
      /_player_x_/ with that prefix removed (every occurrence). The link
      search over the HTML is the parameter swaLink. */
  function Candidate(payload: Json, swaLink: Json -> Option<string>): Option<Json> {
    var v := PayloadValue(payload);
    if (v.None? || !Truthy(v.value)) && payload.JObj? && "html_content" in payload.fields then
      match swaLink(payload.fields["html_content"])
      case Some(href) => Some(JStr(Replace(href, PlayerPrefix, "")))
      case None => v
    else v
  }

  /** The URL completion: // gets https: in front; any other URL that does
      not start with http gets a leading / if it lacks one and the base URL
      in front. */
  function CompleteUrl(u: string, baseUrl: string): (r: string)
    ensures StartsWith(u, "http") ==> r == u
    ensures StartsWith(u, "//") ==> r == "https:" + u
  {
    if StartsWith(u, "//") then
      assert !StartsWith(u, "http") by { assert u[0] == '/'; }
      "https:" + u
    else if !StartsWith(u, "http") then
      baseUrl + (if StartsWith(u, "/") then u else "/" + u)
    else u
  }

  /** With a base URL that starts with http, every completed URL starts
      with http, and completing twice is completing once. */
  lemma CompleteUrlIdempotent(u: string, baseUrl: string)
    requires StartsWith(baseUrl, "http")
    ensures StartsWith(CompleteUrl(u, baseUrl), "http")
    ensures CompleteUrl(CompleteUrl(u, baseUrl), baseUrl) == CompleteUrl(u, baseUrl)
  {
    var r := CompleteUrl(u, baseUrl);
    if StartsWith(u, "//") {
      assert r[..4] == "http";
    } else if !StartsWith(u, "http") {
      assert r[..4] == baseUrl[..4];
    }
    assert r[..2] == r[..4][..2];
  }

  /** get_episode_video's answer. */
  datatype EpisodeVideo = EpisodeVideo(statusCode: int, url: Option<string>, localPath: Option<string>)

  /** Python truthiness of a returned path. */
  predicate PathTruthy(p: Option<string>) {
    p.Some? && p.value != ""
  }

  /** What get_episode_video answers once it has the decoded payload (None
      when decoding failed). A failure to decode, or a URL that is not text,
      ends in the handler that names an undefined page_html, so in 500. */
  function Answered(payload: Option<Json>, animeId: string, swaLink: Json -> Option<string>,
                    download: string -> Option<string>): EpisodeVideo
  {
    if payload.None? then EpisodeVideo(500, None, None)
    else
      var c := Candidate(payload.value, swaLink);
      if c.None? || !Truthy(c.value) then EpisodeVideo(200, None, None)
      else if !c.value.JStr? then EpisodeVideo(500, None, None)
      else
        var url := CompleteUrl(c.value.s, BaseUrl);
        var local := download(url);
        if PathTruthy(local) then EpisodeVideo(200, Some(url), Some("/video/" + animeId + "/" + AfterLast(local.value, '/')))
        else EpisodeVideo(200, Some(url), None)
  }

  /** Every answer is 200 or 500; a URL is always complete (it starts with
      http); a local path appears only with a URL, under /video/<anime id>/. */
  lemma AnsweredShape(payload: Option<Json>, animeId: string, swaLink: Json -> Option<string>,
                      download: string -> Option<string>)
    ensures var a := Answered(payload, animeId, swaLink, download);
            (a.statusCode == 200 || a.statusCode == 500) &&
            (a.statusCode == 500 ==> a.url.None? && a.localPath.None?) &&
            (a.url.Some? ==> StartsWith(a.url.value, "http")) &&
            (a.localPath.Some? ==> a.url.Some? && StartsWith(a.localPath.value, "/video/" + animeId + "/"))
  {
    var a := Answered(payload, animeId, swaLink, download);
    assert StartsWith(BaseUrl, "http") by { assert BaseUrl[..4] == "http"; }
    if a.url.Some? {
      CompleteUrlIdempotent(Candidate(payload.value, swaLink).value.s, BaseUrl);
    }
    if a.localPath.Some? {
      var pre := "/video/" + animeId + "/";
      var local := download(a.url.value).value;
      assert a.localPath.value == pre + AfterLast(local, '/');
      assert a.localPath.value[..|pre|] == pre;
    }
  }

  /** get_episode_video. The play API is asked through make_request with 3
      retries, so at most four times and always at the configured domain; no
      response (any final status but 200, or none at all) answers 500.
      Otherwise the payload is decoded and the video taken from it. */
  method GetEpisodeVideo(animeId: string, episode: string, replies: seq<Reply>,
                         decode: string -> Option<Json>, swaLink: Json -> Option<string>,
                         download: string -> Option<string>)
    returns (result: EpisodeVideo, requested: seq<string>)
    ensures 0 < |requested| <= 4
    ensures forall k :: 0 <= k < |requested| ==> requested[k] == OnDomain("yhdm.one", ApiPath(animeId, episode))
    ensures var last := ReplyAt(replies, |requested| - 1);
            if last.Got? && last.status == 200 && (forall k :: 0 <= k < |requested| - 1 ==> !Final(ReplyAt(replies, k)))
            then result == Answered(decode(last.body), animeId, swaLink, download)
            else result == EpisodeVideo(500, None, None)
  {
    var answer;
    answer, requested := MakeRequest(ApiPath(animeId, episode), 3, BaseDomains, Domain(BaseUrl), replies);
    ConfiguredRequestCount(ApiPath(animeId, episode));
    if answer.response.None? {
      return EpisodeVideo(500, None, None), requested;
    }
    var payload := decode(answer.response.value);
    if payload.None? {
      return EpisodeVideo(500, None, None), requested;
    }
    result := VideoFromPayload(payload.value, animeId, swaLink, download);
  }

  /** The part of get_episode_video after decoding: the loops over the
      sources, the HTML fallback, the completion of the URL and the
      download. */
  method VideoFromPayload(p: Json, animeId: string, swaLink: Json -> Option<string>,
                          download: string -> Option<string>)
    returns (result: EpisodeVideo)
    ensures result == Answered(Some(p), animeId, swaLink, download)
  {
    var v: Option<Json> := None;
    if p.JObj? && "video_plays" in p.fields && p.fields["video_plays"].JArr? {
      v := FirstValue(p.fields["video_plays"].items, "play_data");
    } else if p.JArr? {
      v := FirstValue(p.items, "url");
    }
    if (v.None? || !Truthy(v.value)) && p.JObj? && "html_content" in p.fields {
      var href := swaLink(p.fields["html_content"]);
      if href.Some? {
        v := Some(JStr(Replace(href.value, PlayerPrefix, "")));
      }
    }
    if v.None? || !Truthy(v.value) {
      return EpisodeVideo(200, None, None);
    }
    if !v.value.JStr? {
      return EpisodeVideo(500, None, None);
    }
    var url := CompleteUrl(v.value.s, BaseUrl);
    var local := download(url);
    if PathTruthy(local) {
      result := EpisodeVideo(200, Some(url), Some("/video/" + animeId + "/" + AfterLast(local.value, '/')));
    } else {
      result := EpisodeVideo(200, Some(url), None);
    }
  }

  /** The play API path is relative, so with the configuration it is asked
      for four times at most. */
  lemma ConfiguredRequestCount(path: string)
    requires StartsWith(path, "/_get_plays/")
    ensures Plan(path, 3, BaseDomains, Domain(BaseUrl)) == Repeat(OnDomain("yhdm.one", path), 4)
  {
    assert !StartsWith(path, "http") by { assert path[0] == '/'; }
    ConfiguredPlan(path, 3);
  }
}
