/** The video player controller (components/ui/VideoPlayer.tsx): eight pieces
    of component state, the media element they drive, and the handlers that
    update both. Times, volumes and rates are reals; the browser's
    floating-point numbers and `parseFloat` of slider strings are not part of
    this model. */
module Player {
  import Seqs

  /** The playback speeds the settings menu offers, in menu order. */
  const PlaybackRates: seq<real> := [0.25, 0.5, 0.75, 1.0, 1.25, 1.5, 2.0]

  /** Where `skipTime` moves the playhead: `t + s`, held inside `[0, d]`. */
  function SkipTarget(t: real, s: real, d: real): (r: real)
    ensures d >= 0.0 ==> 0.0 <= r <= d
    ensures 0.0 <= t + s <= d ==> r == t + s
    ensures t + s < 0.0 ==> r == 0.0
    ensures d >= 0.0 && t + s > d ==> r == d
  {
    var ahead := if t + s < d then t + s else d;
    if ahead < 0.0 then 0.0 else ahead
  }

  /** Ten seconds back after ten seconds forward returns to the same spot,
      as long as neither jump hits an end of the video. */
  lemma SkipBackUndoesSkipForward(t: real, d: real)
    requires 0.0 <= t && t + 10.0 <= d
    ensures SkipTarget(SkipTarget(t, 10.0, d), -10.0, d) == t
  {
  }

  /** Skipping towards an end that is already reached leaves the playhead
      there. */
  lemma SkipClampsAtEnds(d: real, s: real)
    requires d >= 0.0 && s >= 0.0
    ensures SkipTarget(d, s, d) == d
    ensures SkipTarget(0.0, -s, d) == 0.0
  {
  }

  /** The volume the element plays at: silent while muted, otherwise the
      remembered volume. The volume slider shows the same value. */
  function Audible(isMuted: bool, volume: real): (v: real)
    ensures isMuted ==> v == 0.0
    ensures !isMuted ==> v == volume
  {
    if isMuted then 0.0 else volume
  }

  /** The `<video>` element's fields the player reads and writes. A new
      element starts paused at time 0, at full volume and normal speed; its
      duration is 0 until the metadata arrives. */
  class MediaElement {
    var currentTime: real
    var duration: real
    var volume: real
    var playbackRate: real
    var paused: bool

    constructor ()
      ensures currentTime == 0.0 && duration == 0.0 && volume == 1.0
      ensures playbackRate == 1.0 && paused
    {
      currentTime, duration, volume, playbackRate, paused := 0.0, 0.0, 1.0, 1.0, true;
    }

    /** Playback has reached the end of a loaded video. */
    predicate Ended()
      reads this
    {
      duration > 0.0 && currentTime >= duration
    }

    /** `play()`: the element leaves the paused state; an element that has
        played to its end starts over from time 0. */
    method Play()
      modifies this
      ensures !paused
      ensures currentTime == if old(Ended()) then 0.0 else old(currentTime)
      ensures duration == old(duration)
      ensures volume == old(volume) && playbackRate == old(playbackRate)
    {
      if Ended() {
        currentTime := 0.0;
      }
      paused := false;
    }

    /** `pause()`: the element enters the paused state. */
    method Pause()
      modifies this
      ensures paused
      ensures currentTime == old(currentTime) && duration == old(duration)
      ensures volume == old(volume) && playbackRate == old(playbackRate)
    {
      paused := true;
    }

    /** The browser has read the video's metadata, which gives its length. */
    method LoadMetadata(length: real)
      modifies this
      ensures duration == length
      ensures currentTime == old(currentTime) && paused == old(paused)
      ensures volume == old(volume) && playbackRate == old(playbackRate)
    {
      duration := length;
    }

    /** The browser plays the video to its end: the playhead stops at the
        duration and the element pauses itself, before it fires `ended`. */
    method ReachEnd()
      requires duration > 0.0
      modifies this
      ensures paused && currentTime == duration && Ended()
      ensures duration == old(duration)
      ensures volume == old(volume) && playbackRate == old(playbackRate)
    {
      currentTime := duration;
      paused := true;
    }
  }

  class VideoPlayer {
    var isPlaying: bool
    var currentTime: real
    var duration: real
    var volume: real
    var isMuted: bool
    var showControls: bool
    var playbackRate: real
    var showSettings: bool
    /** `videoRef.current`: null until the element is mounted. */
    var video: MediaElement?

    /** The element plays at the volume the mute flag and the remembered
        volume give, and at the chosen speed. */
    ghost predicate Synced()
      reads this, video
    {
      video != null ==>
        video.volume == Audible(isMuted, volume) &&
        video.playbackRate == playbackRate
    }

    /** The element agrees with the component state: it is synced, and it
        is paused exactly when the player says it is not playing. Between
        the element pausing itself at the end and the `ended` event only
        `Synced` holds. */
    ghost predicate Valid()
      reads this, video
    {
      Synced() && (video != null ==> video.paused == !isPlaying)
    }

    /** The initial state: not playing, at time 0 of a video of duration 0,
        full volume, not muted, controls shown, normal speed, settings menu
        closed, no element yet. */
    constructor ()
      ensures !isPlaying && currentTime == 0.0 && duration == 0.0
      ensures volume == 1.0 && !isMuted && showControls
      ensures playbackRate == 1.0 && !showSettings
      ensures video == null
      ensures Valid()
    {
      isPlaying, currentTime, duration := false, 0.0, 0.0;
      volume, isMuted, showControls := 1.0, false, true;
      playbackRate, showSettings := 1.0, false;
      video := null;
    }

    /** React attaches a new `<video>` element to the ref. Its defaults
        agree with the initial state. */
    method Mount()
      requires video == null
      requires !isPlaying && volume == 1.0 && !isMuted && playbackRate == 1.0
      modifies this
      ensures fresh(video) && Valid()
      ensures isPlaying == old(isPlaying) && currentTime == old(currentTime)
      ensures duration == old(duration) && volume == old(volume)
      ensures isMuted == old(isMuted) && showControls == old(showControls)
      ensures playbackRate == old(playbackRate) && showSettings == old(showSettings)
    {
      video := new MediaElement();
    }

    /** `togglePlay`: pauses a playing element and plays a paused one, then
        flips `isPlaying`. Without an element nothing changes. */
    method TogglePlay()
      requires Valid()
      modifies this, video
      ensures Valid() && video == old(video)
      ensures old(video) == null ==> isPlaying == old(isPlaying)
      ensures old(video) != null ==> isPlaying == !old(isPlaying)
      ensures old(video) != null ==> video.paused == old(isPlaying)
      ensures old(video) != null ==>
        video.currentTime == (if !old(isPlaying) && old(video.Ended()) then 0.0 else old(video.currentTime))
      ensures old(video) != null ==>
        video.duration == old(video.duration) &&
        video.volume == old(video.volume) && video.playbackRate == old(video.playbackRate)
      ensures currentTime == old(currentTime) && duration == old(duration)
      ensures volume == old(volume) && isMuted == old(isMuted)
      ensures showControls == old(showControls)
      ensures playbackRate == old(playbackRate) && showSettings == old(showSettings)
    {
      var v := video;
      if v == null {
        return;
      }
      if isPlaying {
        v.Pause();
      } else {
        v.Play();
      }
      isPlaying := !isPlaying;
    }

    /** `handleSeek`: the slider value becomes both the element's time and
        the displayed time. The value is not clamped; the slider itself
        only offers values between 0 and the duration. */
    method Seek(newTime: real)
      requires Valid()
      modifies this, video
      ensures Valid() && video == old(video)
      ensures old(video) == null ==> currentTime == old(currentTime)
      ensures old(video) != null ==> currentTime == newTime && video.currentTime == newTime
      ensures old(video) != null ==>
        video.duration == old(video.duration) && video.volume == old(video.volume) &&
        video.playbackRate == old(video.playbackRate) && video.paused == old(video.paused)
      ensures isPlaying == old(isPlaying) && duration == old(duration)
      ensures volume == old(volume) && isMuted == old(isMuted)
      ensures showControls == old(showControls)
      ensures playbackRate == old(playbackRate) && showSettings == old(showSettings)
    {
      var v := video;
      if v == null {
        return;
      }
      v.currentTime := newTime;
      currentTime := newTime;
    }

    /** `handleVolumeChange`: the slider value becomes the element's volume
        and the remembered volume, and the player counts as muted exactly
        when that value is 0. */
    method VolumeChange(newVolume: real)
      requires Valid()
      modifies this, video
      ensures Valid() && video == old(video)
      ensures old(video) == null ==> volume == old(volume) && isMuted == old(isMuted)
      ensures old(video) != null ==>
        volume == newVolume && video.volume == newVolume && isMuted == (newVolume == 0.0)
      ensures old(video) != null ==>
        video.currentTime == old(video.currentTime) && video.duration == old(video.duration) &&
        video.playbackRate == old(video.playbackRate) && video.paused == old(video.paused)
      ensures isPlaying == old(isPlaying) && currentTime == old(currentTime)
      ensures duration == old(duration) && showControls == old(showControls)
      ensures playbackRate == old(playbackRate) && showSettings == old(showSettings)
    {
      var v := video;
      if v == null {
        return;
      }
      v.volume := newVolume;
      volume := newVolume;
      isMuted := newVolume == 0.0;
    }

    /** `toggleMute`: unmuting gives the element back the remembered volume,
        muting silences it; the remembered volume itself never changes. */
    method ToggleMute()
      requires Valid()
      modifies this, video
      ensures Valid() && video == old(video)
      ensures volume == old(volume)
      ensures old(video) == null ==> isMuted == old(isMuted)
      ensures old(video) != null ==> isMuted == !old(isMuted)
      ensures old(video) != null ==> video.volume == (if old(isMuted) then volume else 0.0)
      ensures old(video) != null ==>
        video.currentTime == old(video.currentTime) && video.duration == old(video.duration) &&
        video.playbackRate == old(video.playbackRate) && video.paused == old(video.paused)
      ensures isPlaying == old(isPlaying) && currentTime == old(currentTime)
      ensures duration == old(duration) && showControls == old(showControls)
      ensures playbackRate == old(playbackRate) && showSettings == old(showSettings)
    {
      var v := video;
      if v == null {
        return;
      }
      if isMuted {
        v.volume := volume;
        isMuted := false;
      } else {
        v.volume := 0.0;
        isMuted := true;
      }
    }

    /** Muting and then unmuting (or the other way round) puts the element
        back at the volume it had. */
    method ToggleMuteTwice()
      requires Valid()
      modifies this, video
      ensures Valid() && video == old(video)
      ensures isMuted == old(isMuted) && volume == old(volume)
      ensures video != null ==> video.volume == old(video.volume)
    {
      ToggleMute();
      ToggleMute();
    }

    /** `handlePlaybackRateChange`: the chosen speed goes to the element and
        the state, and the settings menu closes. */
    method PlaybackRateChange(rate: real)
      requires Valid()
      modifies this, video
      ensures Valid() && video == old(video)
      ensures old(video) == null ==>
        playbackRate == old(playbackRate) && showSettings == old(showSettings)
      ensures old(video) != null ==>
        playbackRate == rate && video.playbackRate == rate && !showSettings
      ensures old(video) != null ==>
        video.currentTime == old(video.currentTime) && video.duration == old(video.duration) &&
        video.volume == old(video.volume) && video.paused == old(video.paused)
      ensures isPlaying == old(isPlaying) && currentTime == old(currentTime)
      ensures duration == old(duration) && volume == old(volume)
      ensures isMuted == old(isMuted) && showControls == old(showControls)
    {
      var v := video;
      if v == null {
        return;
      }
      v.playbackRate := rate;
      playbackRate := rate;
      showSettings := false;
    }

    /** `skipTime`: moves the element's playhead by `seconds`, held inside
        `[0, duration]` of the element. The displayed time is left to the next
        `timeupdate` event. */
    method SkipTime(seconds: real)
      requires Valid()
      modifies video
      ensures Valid()
      ensures video != null ==>
        video.currentTime == SkipTarget(old(video.currentTime), seconds, video.duration)
      ensures video != null ==>
        video.duration == old(video.duration) && video.volume == old(video.volume) &&
        video.playbackRate == old(video.playbackRate) && video.paused == old(video.paused)
    {
      var v := video;
      if v == null {
        return;
      }
      var ahead := if v.currentTime + seconds < v.duration then v.currentTime + seconds else v.duration;
      v.currentTime := if ahead < 0.0 then 0.0 else ahead;
    }

    /** The settings button opens a closed menu and closes an open one; it
        works with or without an element. */
    method ToggleSettings()
      requires Valid()
      modifies this
      ensures Valid()
      ensures showSettings == !old(showSettings)
      ensures isPlaying == old(isPlaying) && currentTime == old(currentTime)
      ensures duration == old(duration) && volume == old(volume)
      ensures isMuted == old(isMuted) && showControls == old(showControls)
      ensures playbackRate == old(playbackRate) && video == old(video)
    {
      showSettings := !showSettings;
    }

    /** The `loadedmetadata` listener: the element's duration becomes the
        displayed duration. */
    method OnLoadedMetadata()
      requires video != null && Synced()
      modifies this
      ensures Synced() && (Valid() <==> old(Valid()))
      ensures video == old(video) && duration == video.duration
      ensures isPlaying == old(isPlaying) && currentTime == old(currentTime)
      ensures volume == old(volume) && isMuted == old(isMuted)
      ensures showControls == old(showControls)
      ensures playbackRate == old(playbackRate) && showSettings == old(showSettings)
      ensures video == old(video)
    {
      duration := video.duration;
    }

    /** The `timeupdate` listener: the element's time becomes the displayed
        time. It also fires when the element has just paused itself at the
        end, before `ended`, so it asks only for `Synced` and keeps `Valid`
        as it was. Reporting the time to the parent is not part of this
        model. */
    method OnTimeUpdate()
      requires video != null && Synced()
      modifies this
      ensures Synced() && (Valid() <==> old(Valid()))
      ensures video == old(video) && currentTime == video.currentTime
      ensures isPlaying == old(isPlaying) && duration == old(duration)
      ensures volume == old(volume) && isMuted == old(isMuted)
      ensures showControls == old(showControls)
      ensures playbackRate == old(playbackRate) && showSettings == old(showSettings)
      ensures video == old(video)
    {
      currentTime := video.currentTime;
    }

    /** The `ended` listener: the player stops counting itself as playing.
        The element fires `ended` after it has paused itself at the end, at
        which point the player may still count itself as playing; the
        handler brings the two back into agreement. Notifying the parent is
        not part of this model. */
    method OnEnded()
      requires video != null && video.paused && Synced()
      modifies this
      ensures Valid()
      ensures !isPlaying
      ensures currentTime == old(currentTime) && duration == old(duration)
      ensures volume == old(volume) && isMuted == old(isMuted)
      ensures showControls == old(showControls)
      ensures playbackRate == old(playbackRate) && showSettings == old(showSettings)
      ensures video == old(video)
    {
      isPlaying := false;
    }

    /** `handleMouseMove`: the controls show at once, and a hide timer is
        scheduled that carries the value of `isPlaying` at this moment. */
    method MouseMove() returns (captured: bool)
      requires Valid()
      modifies this
      ensures Valid()
      ensures showControls && captured == isPlaying
      ensures isPlaying == old(isPlaying) && currentTime == old(currentTime)
      ensures duration == old(duration) && volume == old(volume)
      ensures isMuted == old(isMuted) && playbackRate == old(playbackRate)
      ensures showSettings == old(showSettings) && video == old(video)
    {
      showControls := true;
      captured := isPlaying;
    }

    /** One scheduled hide timer fires: it hides the controls exactly when
        the player was playing at the time the timer was scheduled, whatever
        has happened since. */
    method HideTimerFired(captured: bool)
      requires Valid()
      modifies this
      ensures Valid()
      ensures showControls == (if captured then false else old(showControls))
      ensures isPlaying == old(isPlaying) && currentTime == old(currentTime)
      ensures duration == old(duration) && volume == old(volume)
      ensures isMuted == old(isMuted) && playbackRate == old(playbackRate)
      ensures showSettings == old(showSettings) && video == old(video)
    {
      if captured {
        showControls := false;
      }
    }

    /** The pointer leaves the player: the controls hide if it is playing. */
    method MouseLeave()
      requires Valid()
      modifies this
      ensures Valid()
      ensures showControls == (if isPlaying then false else old(showControls))
      ensures isPlaying == old(isPlaying) && currentTime == old(currentTime)
      ensures duration == old(duration) && volume == old(volume)
      ensures isMuted == old(isMuted) && playbackRate == old(playbackRate)
      ensures showSettings == old(showSettings) && video == old(video)
    {
      if isPlaying {
        showControls := false;
      }
    }

    /** The value the volume slider shows; while the state is valid it is
        the element's volume. */
    function VolumeSliderValue(): (v: real)
      reads this, video
      ensures v == Audible(isMuted, volume)
      ensures Valid() && video != null ==> v == video.volume
    {
      if isMuted then 0.0 else volume
    }

    /** The speed highlighted in the settings menu: the offered speeds equal
        to the current one. */
    function HighlightedRates(): (rs: seq<real>)
      reads this
      ensures forall r :: r in rs <==> r in PlaybackRates && r == playbackRate
    {
      var rate := playbackRate;
      Seqs.Filter(PlaybackRates, (r: real) => r == rate)
    }
  }

  /** The offered speeds are seven distinct values between a quarter and
      double speed, and the initial speed 1 is among them. */
  lemma PlaybackRatesOffered()
    ensures |PlaybackRates| == 7 && 1.0 in PlaybackRates
    ensures forall i, j :: 0 <= i < j < |PlaybackRates| ==> PlaybackRates[i] < PlaybackRates[j]
    ensures forall r :: r in PlaybackRates ==> 0.25 <= r <= 2.0
  {
  }

  /** A session: mount, start playing, mute, move the mouse and let the
      timer fire; the element plays silently and the controls are hidden. */
  method PlaySilently() returns (p: VideoPlayer)
    ensures fresh(p) && p.Valid() && p.video != null
    ensures p.isPlaying && !p.video.paused
    ensures p.isMuted && p.volume == 1.0 && p.video.volume == 0.0
    ensures !p.showControls
  {
    p := new VideoPlayer();
    p.Mount();
    p.TogglePlay();
    p.ToggleMute();
    var captured := p.MouseMove();
    p.HideTimerFired(captured);
  }

  /** A session that plays a loaded video to its end: once the element has
      paused itself, the last `timeupdate` shows the end time while the
      player still counts itself as playing; the `ended` handler restores agreement,
      and the next click on the video replays it from the start. */
  method PlayToEndAndReplay() returns (p: VideoPlayer)
    ensures fresh(p) && p.Valid() && p.video != null
    ensures p.isPlaying && !p.video.paused && p.video.currentTime == 0.0
  {
    p := new VideoPlayer();
    p.Mount();
    var v := p.video;
    v.LoadMetadata(30.0);
    p.OnLoadedMetadata();
    p.TogglePlay();
    v.ReachEnd();
    p.OnTimeUpdate();
    assert p.isPlaying && !p.Valid() && p.currentTime == 30.0;
    p.OnEnded();
    assert !p.isPlaying && v.currentTime == 30.0;
    p.TogglePlay();
  }
}
