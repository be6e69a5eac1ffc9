/**
 * The content script's state on one page: the page's video elements, the
 * registry that maps each video to its overlay, the fullscreen element, and
 * the mute threshold with its persisted copy. The keydown handler, the
 * overlay registry operations and the settings edit are methods of `Page`.
 */
module Content {
  import opened Wrappers
  import opened Playback
  import opened Threshold

  /** A video element: the two properties the script reads and writes. */
  class Video {
    var playbackRate: real
    var muted: bool

    constructor (rate: real, muted: bool)
      ensures playbackRate == rate && this.muted == muted
    {
      playbackRate := rate;
      this.muted := muted;
    }

    function State(): PlayState
      reads this
    {
      PlayState(playbackRate, muted)
    }
  }

  /**
   * An element an overlay can hang under: the document body, or another
   * element (such as the one shown fullscreen), which may or may not lie
   * inside the body.
   */
  datatype Host = Body | Element(id: nat, inBody: bool)

  /** Whether a node with this parent is inside the body, as `document.body.contains` reports. */
  predicate InBody(parent: Option<Host>) {
    match parent
    case None => false
    case Some(Body) => true
    case Some(Element(_, inBody)) => inBody
  }

  /** Where positioning puts an overlay: the fullscreen element if there is one, else the body. */
  function TargetParent(fullscreen: Option<Host>): Host {
    if fullscreen.Some? then fullscreen.value else Body
  }

  datatype Icon = Speaker | MutedSpeaker

  /** The overlay text: the rate (shown to one decimal, then "x") and an icon. */
  datatype Label = Label(rate: real, icon: Icon)

  function LabelFor(rate: real, muted: bool): (l: Label)
    ensures l.rate == rate
    ensures l.icon == MutedSpeaker <==> muted
  {
    Label(rate, if muted then MutedSpeaker else Speaker)
  }

  /**
   * One overlay: the video it was made for (its settings handler and its
   * observer keep that video), where its wrapper hangs in the document and
   * what its text shows.
   */
  class Overlay {
    const owner: Video
    var parent: Option<Host>
    var text: Label

    constructor (owner: Video, text: Label)
      ensures this.owner == owner && parent == None && this.text == text
    {
      this.owner := owner;
      parent := None;
      this.text := text;
    }
  }

  /**
   * A video's playback state and its registry entry: the overlay record, if
   * any, with the text and parent that record had.
   */
  datatype Entry = Entry(state: PlayState, record: Option<Overlay>, text: Label, parent: Option<Host>)

  /** Whether the entry holds a record whose wrapper is inside the body. */
  predicate Live(e: Entry) {
    e.record.Some? && InBody(e.parent)
  }

  /**
   * What a keystroke bound to `cmd` does to one video whose entry was `e`,
   * `o` being its overlay afterwards: the rate and mute flag change as
   * `Respond` says; a live record is kept; on a command the overlay shows the
   * new rate and mute icon and hangs under `target`; on any other key a live
   * overlay is left as it was and a new one shows the rate with the speaker
   * icon under `target`.
   */
  ghost predicate KeyApplied(cmd: Option<Command>, v: Video, o: Overlay, e: Entry, threshold: real, target: Host)
    reads v, o
  {
    && v.State() == Respond(cmd, e.state, threshold)
    && o.owner == v
    && (Live(e) ==> e.record == Some(o))
    && (cmd.Some? ==> o.text == LabelFor(v.playbackRate, v.muted) && o.parent == Some(target))
    && (cmd.None? && Live(e) ==> o.text == e.text && o.parent == e.parent)
    && (cmd.None? && !Live(e) ==> o.text == LabelFor(v.playbackRate, false) && o.parent == Some(target))
  }

  /** No element occurs twice. */
  ghost predicate Distinct<T>(s: seq<T>) {
    forall i, j :: 0 <= i < j < |s| ==> s[i] != s[j]
  }

  class Page {
    /** The page's video elements, in document order. */
    var videos: seq<Video>
    /** The registry from video to overlay record. */
    var overlays: map<Video, Overlay>
    var fullscreen: Option<Host>
    var muteThreshold: real
    /** The persisted threshold setting, as it parses back. */
    var stored: Option<real>

    /**
     * The page lists each video once, and each registered overlay was made
     * for the video it is registered under (so no two videos share one).
     */
    ghost predicate Valid()
      reads this, overlays.Values
    {
      && Distinct(videos)
      && (forall v :: v in overlays ==> overlays[v].owner == v)
    }

    /** Whether the video has a registered overlay whose wrapper is still inside the body. */
    predicate HasLiveOverlay(video: Video)
      reads this, overlays.Values
    {
      video in overlays && InBody(overlays[video].parent)
    }

    ghost function PageVideos(): set<Video>
      reads this
    {
      set v | v in videos
    }

    /** The overlays that a keystroke may rewrite: the live ones of the page's videos. */
    ghost function LiveOverlays(): set<Overlay>
      reads this, overlays.Values
    {
      set v | v in videos && HasLiveOverlay(v) :: overlays[v]
    }

    /** Script start: an empty registry and the threshold loaded from the store. */
    constructor (videos: seq<Video>, fullscreen: Option<Host>, stored: Option<real>)
      requires Distinct(videos)
      ensures Valid()
      ensures this.videos == videos && this.fullscreen == fullscreen && this.stored == stored
      ensures overlays == map[]
      ensures muteThreshold == InitialThreshold(stored)
    {
      this.videos := videos;
      this.fullscreen := fullscreen;
      this.stored := stored;
      overlays := map[];
      muteThreshold := InitialThreshold(stored);
    }

    /**
     * Moves the overlay under the fullscreen element, or under the body when
     * nothing is fullscreen; `appended` tells whether it had to be re-appended,
     * which happens only when its parent was a different one.
     */
    method PositionOverlay(o: Overlay) returns (appended: bool)
      modifies o
      ensures o.parent == Some(TargetParent(fullscreen))
      ensures o.text == old(o.text)
      ensures appended <==> old(o.parent) != Some(TargetParent(fullscreen))
    {
      var target := TargetParent(fullscreen);
      appended := o.parent != Some(target);
      if appended {
        o.parent := Some(target);
      }
    }

    /**
     * Returns the video's registered overlay when its wrapper is still in the
     * body; otherwise makes a new overlay showing the rate with the speaker
     * icon, appends it to the body, positions it and registers it.
     */
    method EnsureOverlay(video: Video) returns (o: Overlay)
      requires Valid()
      modifies this
      ensures Valid()
      ensures videos == old(videos) && fullscreen == old(fullscreen)
      ensures muteThreshold == old(muteThreshold) && stored == old(stored)
      ensures old(HasLiveOverlay(video)) ==> o == old(overlays[video]) && overlays == old(overlays)
      ensures !old(HasLiveOverlay(video)) ==>
                && fresh(o)
                && overlays == old(overlays)[video := o]
                && o.parent == Some(TargetParent(fullscreen))
                && o.text == LabelFor(video.playbackRate, false)
    {
      if video in overlays && InBody(overlays[video].parent) {
        o := overlays[video];
        return;
      }
      o := new Overlay(video, LabelFor(video.playbackRate, false));
      o.parent := Some(Body);
      var _ := PositionOverlay(o);
      overlays := overlays[video := o];
    }

    /**
     * Rewrites the label of the video's registered overlay to its current
     * rate and mute icon; an unregistered video changes nothing.
     */
    method UpdateOverlay(video: Video)
      modifies if video in overlays then {overlays[video]} else {}
      ensures video in overlays ==> overlays[video].text == LabelFor(video.playbackRate, video.muted)
      ensures video in overlays ==> overlays[video].parent == old(overlays[video].parent)
    {
      if video !in overlays {
        return;
      }
      var o := overlays[video];
      o.text := LabelFor(video.playbackRate, video.muted);
    }

    /** A video's playback state and its registry entry, as a value. */
    ghost function EntryOf(video: Video): Entry
      reads this, video, overlays.Values
    {
      if video in overlays then
        Entry(video.State(), Some(overlays[video]), overlays[video].text, overlays[video].parent)
      else
        Entry(video.State(), None, LabelFor(0.0, false), None)
    }

    /**
     * The keydown callback for one video: ensure its overlay; on a command,
     * set the new rate, mute exactly when the rate reaches the threshold,
     * relabel and reposition the overlay; on any other key stop after the
     * overlay is ensured.
     */
    method HandleVideo(video: Video, cmd: Option<Command>)
      requires Valid()
      modifies this, video, if HasLiveOverlay(video) then {overlays[video]} else {}
      ensures Valid()
      ensures videos == old(videos) && fullscreen == old(fullscreen)
      ensures muteThreshold == old(muteThreshold) && stored == old(stored)
      ensures overlays.Keys == old(overlays.Keys) + {video}
      ensures forall v :: v in old(overlays) && v != video ==> overlays[v] == old(overlays[v])
      ensures forall v :: v in old(videos) && v != video ==> EntryOf(v) == old(EntryOf(v))
      ensures KeyApplied(cmd, video, overlays[video], old(EntryOf(video)), muteThreshold, TargetParent(fullscreen))
      ensures !Live(old(EntryOf(video))) ==> fresh(overlays[video])
    {
      var o := EnsureOverlay(video);
      match cmd
      case None =>
        return;
      case Some(c) =>
        video.playbackRate := Apply(c, video.playbackRate);
        video.muted := video.playbackRate >= muteThreshold;
        UpdateOverlay(video);
        var _ := PositionOverlay(o);
    }

    /**
     * The keydown handler: nothing happens on a page without videos;
     * otherwise every video, in document order, goes through `HandleVideo`
     * with the command bound to the key.
     */
    method HandleKey(key: string)
      requires Valid()
      modifies this, PageVideos(), LiveOverlays()
      ensures Valid()
      ensures videos == old(videos) && fullscreen == old(fullscreen)
      ensures muteThreshold == old(muteThreshold) && stored == old(stored)
      ensures |videos| == 0 ==> overlays == old(overlays)
      ensures overlays.Keys == old(overlays.Keys) + PageVideos()
      ensures forall v :: v in old(overlays) && v !in videos ==> overlays[v] == old(overlays[v])
      ensures forall i :: 0 <= i < |videos| ==>
                KeyApplied(ParseKey(key), videos[i], overlays[videos[i]], old(EntryOf(videos[i])),
                           muteThreshold, TargetParent(fullscreen))
    {
      var cmd := ParseKey(key);
      var vs := videos;
      if |vs| == 0 {
        return;
      }
      ghost var threshold, target := muteThreshold, TargetParent(fullscreen);
      ghost var entries := seq(|vs|, j requires 0 <= j < |vs| reads * => EntryOf(vs[j]));
      assert forall j :: 0 <= j < |vs| ==> entries[j] == old(EntryOf(vs[j]));
      var i := 0;
      while i < |vs|
        invariant 0 <= i <= |vs|
        invariant Valid()
        invariant videos == vs && fullscreen == old(fullscreen)
        invariant muteThreshold == threshold && stored == old(stored)
        invariant forall v :: v in old(overlays) ==> v in overlays
        invariant forall v :: v in overlays ==> v in old(overlays) || v in vs
        invariant forall v :: v in old(overlays) && v !in vs ==> overlays[v] == old(overlays[v])
        invariant Progress(vs, i, cmd, entries, threshold, target)
      {
        HandleNext(vs, i, cmd, entries, threshold, target);
        i := i + 1;
      }
    }

    /**
     * How far the keydown loop has got: the videos before `i` have had the
     * command applied to the entries they had when the key arrived, the
     * others still have those entries.
     */
    ghost predicate Progress(vs: seq<Video>, i: nat, cmd: Option<Command>, entries: seq<Entry>, threshold: real, target: Host)
      reads this, overlays.Values, set v | v in vs
    {
      && i <= |vs| == |entries|
      && (forall j :: i <= j < |vs| ==> EntryOf(vs[j]) == entries[j])
      && (forall j :: 0 <= j < i ==>
            vs[j] in overlays && KeyApplied(cmd, vs[j], overlays[vs[j]], entries[j], threshold, target))
    }

    /** One turn of the keydown loop: `HandleVideo` on the `i`-th video. */
    method HandleNext(vs: seq<Video>, i: nat, cmd: Option<Command>, ghost entries: seq<Entry>,
                      ghost threshold: real, ghost target: Host)
      requires Valid() && videos == vs && i < |vs|
      requires muteThreshold == threshold && TargetParent(fullscreen) == target
      requires Progress(vs, i, cmd, entries, threshold, target)
      modifies this, vs[i], if HasLiveOverlay(vs[i]) then {overlays[vs[i]]} else {}
      ensures Valid() && videos == vs
      ensures fullscreen == old(fullscreen) && muteThreshold == threshold && stored == old(stored)
      ensures forall v :: v in old(overlays) ==> v in overlays
      ensures forall v :: v in overlays ==> v in old(overlays) || v == vs[i]
      ensures forall v :: v in old(overlays) && v != vs[i] ==> overlays[v] == old(overlays[v])
      ensures Progress(vs, i + 1, cmd, entries, threshold, target)
    {
      HandleVideo(vs[i], cmd);
    }

    /**
     * The settings gear of overlay `o`, clicked with the prompt answering
     * `input`: a cancelled or non-numeric answer changes nothing; a number
     * becomes the threshold, is persisted, and the label of the overlay now
     * registered for the gear's video is redrawn. No video is re-muted.
     */
    method SettingsClick(o: Overlay, input: Edit)
      requires Valid()
      modifies this, if o.owner in overlays then {overlays[o.owner]} else {}
      ensures Valid()
      ensures videos == old(videos) && overlays == old(overlays) && fullscreen == old(fullscreen)
      ensures AcceptedEdit(input).None? ==> muteThreshold == old(muteThreshold) && stored == old(stored)
      ensures AcceptedEdit(input).Some? ==> muteThreshold == AcceptedEdit(input).value && stored == AcceptedEdit(input)
      ensures o.owner in overlays ==> overlays[o.owner].parent == old(overlays[o.owner].parent)
      ensures AcceptedEdit(input).None? && o.owner in overlays ==>
                overlays[o.owner].text == old(overlays[o.owner].text)
      ensures AcceptedEdit(input).Some? && o.owner in overlays ==>
                overlays[o.owner].text == LabelFor(o.owner.playbackRate, o.owner.muted)
    {
      var accepted := AcceptedEdit(input);
      if accepted.Some? {
        muteThreshold := accepted.value;
        stored := Some(muteThreshold);
        UpdateOverlay(o.owner);
      }
    }

    /**
     * Ensuring a video's overlay twice in a row gives the same record, unless
     * the record the first call made does not count as attached: that happens
     * when the fullscreen element lies outside the body, and then the second
     * call makes yet another overlay.
     */
    method EnsureTwice(video: Video) returns (first: Overlay, second: Overlay)
      requires Valid()
      modifies this
      ensures Valid()
      ensures old(HasLiveOverlay(video)) || InBody(Some(TargetParent(fullscreen))) ==> second == first
      ensures !old(HasLiveOverlay(video)) && !InBody(Some(TargetParent(fullscreen))) ==>
                second != first && fresh(first) && fresh(second)
    {
      first := EnsureOverlay(video);
      second := EnsureOverlay(video);
    }
}
}
