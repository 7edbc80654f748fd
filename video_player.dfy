/**
  The source selector and player state of CustomVideoPlayer
  (src/components/matches/CustomVideoPlayer.tsx): which source is active, which
  playback surface is shown for it, and the playing and muted flags.
 */
module VideoPlayer {
  import opened Types
  import opened Text
  import opened Seqs

  /** `initialSourceId || sources[0]?.id || ""`: an empty or missing id falls through. */
  function InitialSourceId(sources: seq<MatchSource>, initialSourceId: Option<string>): (id: string)
    ensures initialSourceId.Some? && initialSourceId.value != "" ==> id == initialSourceId.value
    ensures initialSourceId.None? || initialSourceId.value == "" ==>
              id == if |sources| > 0 then sources[0].id else ""
  {
    if initialSourceId.Some? && initialSourceId.value != "" then initialSourceId.value
    else if |sources| > 0 && sources[0].id != "" then sources[0].id
    else ""
  }

  /**
    `sources.find(s => s.id === activeSourceId) || sources[0]`: the first source
    with the active id, else the first source; None (undefined) only for no sources.
   */
  function ActiveSource(sources: seq<MatchSource>, activeSourceId: string): (r: Option<MatchSource>)
    ensures r.None? <==> |sources| == 0
    ensures r.Some? ==> r.value in sources
    ensures (exists k | 0 <= k < |sources| :: sources[k].id == activeSourceId) ==>
              r.Some? && r.value.id == activeSourceId
              && exists k | 0 <= k < |sources| :: sources[k] == r.value && forall j | 0 <= j < k :: sources[j].id != activeSourceId
    ensures (forall k | 0 <= k < |sources| :: sources[k].id != activeSourceId) && |sources| > 0 ==>
              r == Some(sources[0])
  {
    match Find(sources, (s: MatchSource) => s.id == activeSourceId)
    case Some(s) => Some(s)
    case None => if |sources| > 0 then Some(sources[0]) else None
  }

  /** What the player renders. `selector` is the source drop-down. */
  datatype Surface =
    | NoSources
    | IframeSurface(url: string, selector: bool)
    | VideoSurface(url: string, selector: bool)

  /**
    The three render branches: the "No video sources available" panel for an
    empty list, an iframe for an iframe source, a video element otherwise; the
    drop-down only when there is more than one source.
   */
  function Render(sources: seq<MatchSource>, activeSourceId: string): (v: Surface)
    ensures v.NoSources? <==> |sources| == 0
    ensures v.IframeSurface? <==> |sources| > 0 && ActiveSource(sources, activeSourceId).value.kind == Iframe
    ensures v.VideoSurface? <==> |sources| > 0 && ActiveSource(sources, activeSourceId).value.kind == Video
    ensures !v.NoSources? ==> v.url == ActiveSource(sources, activeSourceId).value.url
    ensures !v.NoSources? ==> (v.selector <==> |sources| > 1)
  {
    if |sources| == 0 then NoSources
    else
      var active := ActiveSource(sources, activeSourceId).value;
      match active.kind
      case Iframe => IframeSurface(active.url, |sources| > 1)
      case Video => VideoSurface(active.url, |sources| > 1)
  }

  /** The state of one mounted player. */
  class CustomVideoPlayer {
    const sources: seq<MatchSource>
    var activeSourceId: string
    var isPlaying: bool
    var isMuted: bool
    var volume: real
    var currentTime: real
    var duration: real

    /** The initial state of the component's state hooks. */
    constructor (sources: seq<MatchSource>, initialSourceId: Option<string>)
      ensures this.sources == sources
      ensures activeSourceId == InitialSourceId(sources, initialSourceId)
      ensures !isPlaying && !isMuted
      ensures volume == 1.0 && currentTime == 0.0 && duration == 0.0
    {
      this.sources := sources;
      activeSourceId := InitialSourceId(sources, initialSourceId);
      isPlaying := false;
      isMuted := false;
      volume := 1.0;
      currentTime := 0.0;
      duration := 0.0;
    }

    /** The current render. */
    function View(): Surface
      reads this
    {
      Render(sources, activeSourceId)
    }

    /** `videoRef.current` is set exactly when a video element is rendered. */
    predicate HasVideoElement()
      reads this
    {
      View().VideoSurface?
    }

    /** handleSourceChange: takes the id as given and stops playback; nothing else changes. */
    method HandleSourceChange(sourceId: string)
      modifies this
      ensures activeSourceId == sourceId && !isPlaying
      ensures isMuted == old(isMuted) && volume == old(volume)
      ensures currentTime == old(currentTime) && duration == old(duration)
    {
      activeSourceId := sourceId;
      isPlaying := false;
    }

    /** toggleMute: flips the muted flag when a video element exists, else does nothing. */
    method ToggleMute()
      modifies this
      ensures isMuted == if old(HasVideoElement()) then !old(isMuted) else old(isMuted)
      ensures activeSourceId == old(activeSourceId) && isPlaying == old(isPlaying)
      ensures volume == old(volume) && currentTime == old(currentTime) && duration == old(duration)
    {
      if !HasVideoElement() {
        return;
      }
      isMuted := !isMuted;
    }
  }

  /** Muting twice restores the muted flag. */
  method ToggleMuteTwice(player: CustomVideoPlayer)
    modifies player
    ensures player.isMuted == old(player.isMuted)
    ensures player.activeSourceId == old(player.activeSourceId)
  {
    player.ToggleMute();
    player.ToggleMute();
  }

  /** Choosing a source in the drop-down shows that source, paused. */
  method SwitchToListedSource(player: CustomVideoPlayer, k: nat)
    modifies player
    requires k < |player.sources|
    requires forall j | 0 <= j < k :: player.sources[j].id != player.sources[k].id
    ensures !player.isPlaying
    ensures ActiveSource(player.sources, player.activeSourceId) == Some(player.sources[k])
    ensures player.View().IframeSurface? <==> player.sources[k].kind == Iframe
  {
    player.HandleSourceChange(player.sources[k].id);
    var r := ActiveSource(player.sources, player.activeSourceId);
    assert r.value == player.sources[k] by {
      var i :| 0 <= i < |player.sources| && player.sources[i] == r.value
               && forall j | 0 <= j < i :: player.sources[j].id != player.activeSourceId;
      assert i == k;
    }
  }

  /**
    formatTime for whole seconds: "{minutes}:{seconds}". Split on ':' it gives
    the minutes t / 60 and a seconds field of exactly two digits holding
    t % 60, which starts with a padding '0' exactly when the seconds are below 10;
    read back, the two fields give the seconds formatted.
   */
  function FormatTime(timeInSeconds: nat): (r: string)
    ensures var parts := Split(r, ':');
      && |parts| == 2 && AllDigits(parts[0]) && AllDigits(parts[1]) && |parts[1]| == 2
      && parts[0] == NatToString(timeInSeconds / 60)
      && ParseNat(parts[0]) == timeInSeconds / 60
      && ParseNat(parts[1]) == timeInSeconds % 60
      && (parts[1][0] == '0' <==> timeInSeconds % 60 < 10)
      && ParseNat(parts[0]) * 60 + ParseNat(parts[1]) == timeInSeconds
  {
    var minutes, seconds := timeInSeconds / 60, timeInSeconds % 60;
    var secs := (if seconds < 10 then "0" else "") + NatToString(seconds);
    assert AllDigits(secs) && |secs| == 2;
    assert ParseNat(secs) == seconds by {
      ParseNatToString(seconds);
      if seconds < 10 {
        ParseNatLeadingZero(NatToString(seconds));
      } else {
        assert secs == NatToString(seconds);
      }
    }
    assert secs[0] == '0' <==> seconds < 10;
    ParseNatToString(minutes);
    var parts := [NatToString(minutes), secs];
    forall k | 0 <= k < 2 ensures ':' !in parts[k] {
      assert AllDigits(parts[k]);
    }
    assert parts[1..] == [secs];
    assert NatToString(minutes) + ":" + secs == Join(parts, ':');
    SplitJoin(parts, ':');
    NatToString(minutes) + ":" + secs
  }
}
