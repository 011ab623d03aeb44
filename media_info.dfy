/**
 * The decision and parsing logic of `get_media_info`: which visible window
 * titles are media-player candidates (`enum_handler`), the fixed result when
 * there are none, and the split of the first candidate at " - ".
 */
module MediaInfo {
  import opened Wrappers
  import opened PyStr

  /** One top-level window as the OS enumeration reports it; `pid` is `None` when the lookup failed. */
  datatype Window = Window(visible: bool, title: string, pid: Option<int>)

  /** The `(title, artist, desc)` triple `get_media_info` returns. */
  datatype Media = Media(title: string, artist: Option<string>, desc: Option<string>)

  const PlayerKeywords: seq<string> := ["spotify", "youtube", "vlc", "music", "mpv", "media"]

  /** Returned when no window qualifies. */
  const NoMedia: Media := Media("Kein Titel", Some("Keine Wiedergabe"), Some(""))

  const Delimiter: string := " - "

  /**
   * A non-empty title whose lower-case form names a known player; it is at
   * least as long as the shortest player name.
   */
  predicate IsPlayerTitle(title: string): (r: bool)
    ensures r ==> |title| >= 3
  {
    title != "" && exists p :: p in PlayerKeywords && Contains(Lower(title), p)
  }

  /** Player names are found whatever the case of the title. */
  lemma PlayerTitleCaseInsensitive(title: string)
    ensures IsPlayerTitle(Lower(title)) == IsPlayerTitle(title)
  {
    LowerIdempotent(title);
  }

  /**
   * Whether `enum_handler` keeps the window's title: visible, and then either
   * owned by the selected process with a non-empty title, or, with no process
   * selected, a player title.
   */
  predicate IsCandidate(w: Window, selectPid: Option<int>): (r: bool)
    ensures r ==> w.visible && w.title != ""
    ensures r && selectPid.Some? ==> w.pid == selectPid
  {
    w.visible &&
    match selectPid
    case Some(_) => w.pid == selectPid && w.title != ""
    case None => IsPlayerTitle(w.title)
  }

  /** The titles `enum_handler` collects, in enumeration order. */
  function CandidateTitles(windows: seq<Window>, selectPid: Option<int>): (titles: seq<string>)
    ensures |titles| <= |windows|
    ensures forall k :: 0 <= k < |titles| ==> titles[k] != ""
  {
    if windows == [] then []
    else
      var head := if IsCandidate(windows[0], selectPid) then [windows[0].title] else [];
      var rest := CandidateTitles(windows[1..], selectPid);
      assert forall k :: |head| <= k < |head| + |rest| ==> (head + rest)[k] == rest[k - |head|];
      head + rest
  }

  /** Collecting over two runs of windows is collecting over each in turn: enumeration order is kept. */
  lemma {:induction false} CandidateTitlesAppend(a: seq<Window>, b: seq<Window>, selectPid: Option<int>)
    ensures CandidateTitles(a + b, selectPid) == CandidateTitles(a, selectPid) + CandidateTitles(b, selectPid)
  {
    if a == [] {
      assert a + b == b;
    } else {
      assert (a + b)[0] == a[0] && (a + b)[1..] == a[1..] + b;
      CandidateTitlesAppend(a[1..], b, selectPid);
    }
  }

  /** A title is collected exactly when some window qualifying under the filter carries it. */
  lemma {:induction false} CandidateTitlesMembership(windows: seq<Window>, selectPid: Option<int>, t: string)
    ensures t in CandidateTitles(windows, selectPid)
      <==> exists i :: 0 <= i < |windows| && IsCandidate(windows[i], selectPid) && windows[i].title == t
  {
    if windows != [] {
      CandidateTitlesMembership(windows[1..], selectPid, t);
      if exists i :: 0 <= i < |windows| && IsCandidate(windows[i], selectPid) && windows[i].title == t {
        var i :| 0 <= i < |windows| && IsCandidate(windows[i], selectPid) && windows[i].title == t;
        if i > 0 {
          assert windows[1..][i - 1] == windows[i];
        }
      }
      if exists i :: 0 <= i < |windows| - 1 && IsCandidate(windows[1..][i], selectPid) && windows[1..][i].title == t {
        var i :| 0 <= i < |windows| - 1 && IsCandidate(windows[1..][i], selectPid) && windows[1..][i].title == t;
        assert windows[i + 1] == windows[1..][i];
      }
    }
  }

  /** The first collected title is that of the first qualifying window. */
  lemma {:induction false} FirstCandidate(windows: seq<Window>, selectPid: Option<int>) returns (i: nat)
    requires CandidateTitles(windows, selectPid) != []
    ensures i < |windows| && IsCandidate(windows[i], selectPid)
    ensures CandidateTitles(windows, selectPid)[0] == windows[i].title
    ensures forall j :: 0 <= j < i ==> !IsCandidate(windows[j], selectPid)
  {
    if IsCandidate(windows[0], selectPid) {
      i := 0;
    } else {
      var k := FirstCandidate(windows[1..], selectPid);
      i := k + 1;
      forall j | 0 <= j < i ensures !IsCandidate(windows[j], selectPid) {
        if j > 0 {
          assert windows[j] == windows[1..][j - 1];
        }
      }
    }
  }

  /** `enum_handler` run over every enumerated window, appending to `titles` in place. */
  method CollectTitles(windows: seq<Window>, selectPid: Option<int>) returns (titles: seq<string>)
    ensures titles == CandidateTitles(windows, selectPid)
  {
    titles := [];
    for n := 0 to |windows|
      invariant titles == CandidateTitles(windows[..n], selectPid)
    {
      var w := windows[n];
      if w.visible {
        if selectPid.Some? {
          if w.pid == selectPid && w.title != "" {
            titles := titles + [w.title];
          }
        } else if w.title != "" && exists p :: p in PlayerKeywords && Contains(Lower(w.title), p) {
          titles := titles + [w.title];
        }
      }
      assert windows[..n + 1] == windows[..n] + [w];
      CandidateTitlesAppend(windows[..n], [w], selectPid);
    }
    assert windows[..|windows|] == windows;
  }

  /** The split of one window title: at the first " - " into two stripped parts, or the title unchanged. */
  function ParseTitle(title: string): (m: Media)
    ensures m.artist.Some? <==> Contains(title, Delimiter)
    ensures m.desc == None
  {
    if Contains(title, Delimiter) then
      var parts := Split(title, Delimiter);
      if |parts| >= 2 then
        Media(Strip(parts[0]), Some(Strip(Join(Delimiter, parts[1..]))), None)
      else
        Media(title, None, None)
    else
      Media(title, None, None)
  }

  /**
   * A title containing " - " is reported as its stripped text before the first
   * delimiter and its stripped text after it; the two pieces and the delimiter
   * make up the title, and the first piece holds no delimiter.
   */
  lemma ParseTitleDelimited(title: string) returns (i: nat)
    requires Contains(title, Delimiter)
    ensures i + |Delimiter| <= |title|
    ensures title[..i] + Delimiter + title[i + 3..] == title
    ensures !Contains(title[..i], Delimiter)
    ensures ParseTitle(title) == Media(Strip(title[..i]), Some(Strip(title[i + 3..])), None)
  {
    i := FindFirst(title, Delimiter).value;
    SplitAtFirst(title, Delimiter, i);
    FirstOccurrenceCut(title, Delimiter, i);
  }

  /** A title without " - " is returned as it is, with no artist. */
  lemma ParseTitleUndelimited(title: string)
    requires !Contains(title, Delimiter)
    ensures ParseTitle(title) == Media(title, None, None)
  {
  }

  /** What `get_media_info` reports for the enumerated windows. */
  function MediaFor(windows: seq<Window>, selectPid: Option<int>): (m: Media)
    ensures m.desc.Some? <==> CandidateTitles(windows, selectPid) == []
    ensures m.desc.Some? ==> m == NoMedia
  {
    var titles := CandidateTitles(windows, selectPid);
    if titles == [] then NoMedia else ParseTitle(titles[0])
  }

  /** `get_media_info` over the enumerated windows and the optional selected process id. */
  method GetMediaInfo(windows: seq<Window>, selectPid: Option<int>) returns (info: Media)
    ensures CandidateTitles(windows, selectPid) == [] ==> info == NoMedia
    ensures CandidateTitles(windows, selectPid) != [] ==> info == ParseTitle(CandidateTitles(windows, selectPid)[0])
    ensures info == MediaFor(windows, selectPid)
  {
    var titles := CollectTitles(windows, selectPid);
    if titles == [] {
      return NoMedia;
    }
    var title := titles[0];
    info := ParseTitle(title);
  }
}
