/**
 * The state `Visualizer` keeps across its timer callbacks: the advertisement
 * flag, the on-screen advertisement indicator, the last media seen, the label
 * texts, the log of `mute_all_audio` calls, and the spectrum target that
 * `update_visuals` takes from the audio queue.
 */
module Visualizer {
  import opened Wrappers
  import opened AdDetection
  import opened MediaInfo
  import opened AdMute

  /** One spectrum from the audio thread: a bar-amplitude vector. */
  type Frame = seq<real>

  /** The `queue.Queue` between the audio thread and the interface. */
  class FrameQueue {
    var items: seq<Frame>

    constructor ()
      ensures items == []
    {
      items := [];
    }

    /** `q.put(spectrum)`. */
    method Put(f: Frame)
      modifies this
      ensures items == old(items) + [f]
    {
      items := items + [f];
    }

    /** `q.empty()`. */
    method Empty() returns (e: bool)
      ensures e <==> items == []
    {
      e := items == [];
    }

    /** `q.get()`, which `update_visuals` calls only on a non-empty queue. */
    method Get() returns (f: Frame)
      requires items != []
      modifies this
      ensures f == old(items)[0] && items == old(items)[1..]
    {
      f := items[0];
      items := items[1..];
    }
  }

  /** Whether `update_ui` treats the media as an advertisement: its title, artist or description is one. */
  function IsAdMedia(m: Media, keywords: seq<string>): (r: bool)
    ensures keywords == [] ==> !r
    ensures r ==> m.title != "" || (m.artist.Some? && m.artist.value != "") || (m.desc.Some? && m.desc.value != "")
  {
    IsAdvertisement(Some(m.title), keywords) || IsAdvertisement(m.artist, keywords) || IsAdvertisement(m.desc, keywords)
  }

  /** The title label text: `title — artist` when the artist is a non-empty string, else the title. */
  function TitleLabel(title: string, artist: Option<string>): (text: string)
    ensures |title| <= |text| && text[..|title|] == title
    ensures |text| > |title| <==> artist.Some? && artist.value != ""
  {
    if artist.Some? && artist.value != "" then title + " \U{2014} " + artist.value else title
  }

  class Visualizer {
    var audioQueue: FrameQueue
    var target: Frame
    var currentTitle: Option<string>
    var currentArtist: Option<string>
    var isAdPlaying: bool
    /** The canvas item of the advertisement indicator, when it is shown. */
    var adIndicatorWindow: Option<int>
    var titleText: string
    var descText: string
    /** Every `mute_all_audio(muted)` call so far, as its `muted` argument. */
    var muteCalls: seq<bool>
    /** Every advertisement classification `update_ui` has made so far. */
    ghost var adSignals: seq<bool>

    /**
     * The indicator is shown exactly while an advertisement plays, and the
     * calls so far are those the edges of the classifications dictate.
     */
    ghost predicate Valid()
      reads this
    {
      && (adIndicatorWindow.Some? <==> isAdPlaying)
      && muteCalls == MuteCalls(false, adSignals)
      && isAdPlaying == LastSignal(false, adSignals)
    }

    /** The state `__init__` sets up before its first `update_ui` and `update_visuals` calls. */
    constructor (q: FrameQueue, barCount: nat)
      ensures Valid()
      ensures audioQueue == q
      ensures |target| == barCount && forall k :: 0 <= k < barCount ==> target[k] == 0.0
      ensures currentTitle == None && currentArtist == None
      ensures !isAdPlaying && adIndicatorWindow == None
      ensures titleText == "Titel \U{2014} Artist" && descText == ""
      ensures muteCalls == [] && adSignals == []
    {
      audioQueue := q;
      target := seq(barCount, _ => 0.0);
      currentTitle, currentArtist := None, None;
      isAdPlaying := false;
      adIndicatorWindow := None;
      titleText, descText := "Titel \U{2014} Artist", "";
      muteCalls, adSignals := [], [];
    }

    /**
     * One `update_ui` tick. `windows` is what the window enumeration reports,
     * `selectPid` the optional process filter, `keywords` the configured
     * advertisement keywords and `newIndicator` the canvas item the indicator
     * gets if it is created now.
     */
    method UpdateUi(windows: seq<Window>, selectPid: Option<int>, keywords: seq<string>, newIndicator: int)
      requires Valid()
      modifies this
      ensures Valid()
      ensures var m := MediaFor(windows, selectPid);
              && isAdPlaying == IsAdMedia(m, keywords)
              && muteCalls == old(muteCalls) + AdTransition(old(isAdPlaying), isAdPlaying)
              && adSignals == old(adSignals) + [isAdPlaying]
              && currentTitle == Some(m.title) && currentArtist == m.artist
              && titleText == TitleLabel(m.title, m.artist)
              && descText == (if m.desc.Some? then m.desc.value else "")
      ensures Alternating(muteCalls, true)
      ensures old(isAdPlaying) == isAdPlaying ==> adIndicatorWindow == old(adIndicatorWindow)
      ensures !old(isAdPlaying) && isAdPlaying ==> adIndicatorWindow == Some(newIndicator)
      ensures audioQueue == old(audioQueue) && target == old(target)
    {
      var info := GetMediaInfo(windows, selectPid);
      var title, artist, desc := info.title, info.artist, info.desc;
      var isCurrentlyAd := IsAdMedia(info, keywords);
      HandleAdSignal(isCurrentlyAd, newIndicator);
      TrackMedia(title, artist, desc);
    }

    /** The mute/unmute and indicator block of `update_ui` for one classification. */
    method HandleAdSignal(isCurrentlyAd: bool, newIndicator: int)
      requires Valid()
      modifies this`isAdPlaying, this`adIndicatorWindow, this`muteCalls, this`adSignals
      ensures Valid()
      ensures isAdPlaying == isCurrentlyAd
      ensures muteCalls == old(muteCalls) + AdTransition(old(isAdPlaying), isCurrentlyAd)
      ensures adSignals == old(adSignals) + [isCurrentlyAd]
      ensures Alternating(muteCalls, true)
      ensures old(isAdPlaying) == isAdPlaying ==> adIndicatorWindow == old(adIndicatorWindow)
      ensures !old(isAdPlaying) && isAdPlaying ==> adIndicatorWindow == Some(newIndicator)
    {
      MuteCallsSnoc(false, adSignals, isCurrentlyAd);
      if isCurrentlyAd && !isAdPlaying {
        muteCalls := muteCalls + [true];
        isAdPlaying := true;
        if adIndicatorWindow == None {
          adIndicatorWindow := Some(newIndicator);
        }
      } else if !isCurrentlyAd && isAdPlaying {
        muteCalls := muteCalls + [false];
        isAdPlaying := false;
        if adIndicatorWindow != None {
          adIndicatorWindow := None;
        }
      }
      adSignals := adSignals + [isCurrentlyAd];
      MuteCallsAlternate(false, adSignals);
    }

    /** The change tracking and label updates at the end of `update_ui`. */
    method TrackMedia(title: string, artist: Option<string>, desc: Option<string>)
      modifies this`currentTitle, this`currentArtist, this`titleText, this`descText
      ensures currentTitle == Some(title) && currentArtist == artist
      ensures titleText == TitleLabel(title, artist)
      ensures descText == (if desc.Some? then desc.value else "")
    {
      if Some(title) != currentTitle || artist != currentArtist {
        currentTitle := Some(title);
        currentArtist := artist;
      }
      titleText := TitleLabel(title, artist);
      descText := if desc.Some? then desc.value else "";
    }

    /** The queue-draining loop of `update_visuals`: the latest spectrum wins. */
    method UpdateVisuals()
      modifies this`target, audioQueue
      ensures audioQueue.items == []
      ensures old(audioQueue.items) == [] ==> target == old(target)
      ensures old(audioQueue.items) != [] ==> target == old(audioQueue.items)[|old(audioQueue.items)| - 1]
    {
      ghost var pending := audioQueue.items;
      ghost var taken := 0;
      var empty := audioQueue.Empty();
      while !empty
        invariant 0 <= taken <= |pending|
        invariant audioQueue.items == pending[taken..]
        invariant taken == 0 ==> target == old(target)
        invariant taken > 0 ==> target == pending[taken - 1]
        invariant empty <==> audioQueue.items == []
        decreases |audioQueue.items|
      {
        var spectrum := audioQueue.Get();
        target := spectrum;
        taken := taken + 1;
        empty := audioQueue.Empty();
      }
    }
  }
}
