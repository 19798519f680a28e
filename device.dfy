/** The firmware's main loop (src/main.rs): a render loop that consumes
    messages and redraws parts of the screen, fed by a producer that polls
    the currently playing track. */
module Device {
  import opened Common
  import opened Scroll
  import opened Marquee
  import opened RenderLoop

  /** `Message` of the firmware. */
  datatype Message =
    | UpdateSong(playing: Option<Playing>, image: Option<Image>, changed: bool)
    | UpdateProgress
    | ScrollText

  /** The render loop's state. The log `redraws` records every call into the
      graphics crate, in order. */
  class Engine {
    const ts: Typesetter
    var shiftingTitle: bool
    var titleShift: nat
    var composerShift: nat
    var currPlaying: Option<Playing>
    var progressOffset: nat
    var scrollEndedAt: nat
    ghost var redraws: seq<Redraw>

    /** The field that is not scrolling sits at shift 0. */
    ghost predicate Valid()
      reads this
    {
      && ts.Valid()
      && (shiftingTitle ==> composerShift == 0)
      && (!shiftingTitle ==> titleShift == 0)
    }

    function State(): ScrollState
      reads this
    {
      ScrollState(shiftingTitle, titleShift, composerShift)
    }

    constructor(ts: Typesetter, now: nat)
      requires ts.Valid()
      ensures Valid() && this.ts == ts
      ensures State() == START && currPlaying == None && progressOffset == 0 && scrollEndedAt == now
      ensures redraws == []
    {
      this.ts := ts;
      shiftingTitle := true;
      titleShift := 0;
      composerShift := 0;
      currPlaying := None;
      progressOffset := 0;
      scrollEndedAt := now;
      redraws := [];
    }

    /** Redraw both text lines of the current track and keep the shifts the
        draw leaves. */
    method RedrawText(track: Track)
      requires ts.Valid()
      modifies this
      ensures titleShift == Redrawn(TitleField(ts, track), old(titleShift))
      ensures composerShift == Redrawn(ComposerField(ts, track), old(composerShift))
      ensures shiftingTitle == old(shiftingTitle) && currPlaying == old(currPlaying)
      ensures progressOffset == old(progressOffset) && scrollEndedAt == old(scrollEndedAt)
      ensures redraws == old(redraws) + [DrawNameArtist(track, old(titleShift), old(composerShift))]
    {
      var nameCanvas, composerCanvas, t, c := DrawNameAndArtist(ts, track, titleShift, composerShift);
      redraws := redraws + [DrawNameArtist(track, titleShift, composerShift)];
      titleShift, composerShift := t, c;
    }

    /** An accepted ScrollText: shift the active field by one more column,
        redraw, and hand over to the other field (restarting the cooldown)
        once the active shift reads 0. */
    method AdvanceMarquee(now: nat)
      requires Valid() && currPlaying.Some?
      modifies this
      ensures Valid()
      ensures var track := old(currPlaying).value.track;
              State() == Tick(TitleField(ts, track), ComposerField(ts, track), old(State()))
      ensures scrollEndedAt == (if shiftingTitle != old(shiftingTitle) then now else old(scrollEndedAt))
      ensures currPlaying == old(currPlaying) && progressOffset == old(progressOffset)
      ensures var track := old(currPlaying).value.track;
              redraws == old(redraws) + [if old(shiftingTitle) then DrawNameArtist(track, old(titleShift) + 1, old(composerShift))
                                         else DrawNameArtist(track, old(titleShift), old(composerShift) + 1)]
    {
      if shiftingTitle {
        AdvanceTitle(now);
      } else {
        AdvanceComposer(now);
      }
    }

    /** The title is scrolling: one more column, and the artist line takes
        over once the title's shift reads 0. */
    method AdvanceTitle(now: nat)
      requires Valid() && currPlaying.Some? && shiftingTitle
      modifies this
      ensures Valid()
      ensures var track := old(currPlaying).value.track;
              State() == Tick(TitleField(ts, track), ComposerField(ts, track), old(State()))
      ensures scrollEndedAt == (if shiftingTitle then old(scrollEndedAt) else now)
      ensures currPlaying == old(currPlaying) && progressOffset == old(progressOffset)
      ensures redraws == old(redraws) + [DrawNameArtist(old(currPlaying).value.track, old(titleShift) + 1, old(composerShift))]
    {
      var track := currPlaying.value.track;
      titleShift := titleShift + 1;
      RedrawText(track);
      if titleShift == 0 {
        shiftingTitle := false;
        scrollEndedAt := now;
      }
    }

    /** The artist line is scrolling: one more column, and the title takes
        over once the artist line's shift reads 0. */
    method AdvanceComposer(now: nat)
      requires Valid() && currPlaying.Some? && !shiftingTitle
      modifies this
      ensures Valid()
      ensures var track := old(currPlaying).value.track;
              State() == Tick(TitleField(ts, track), ComposerField(ts, track), old(State()))
      ensures scrollEndedAt == (if shiftingTitle then now else old(scrollEndedAt))
      ensures currPlaying == old(currPlaying) && progressOffset == old(progressOffset)
      ensures redraws == old(redraws) + [DrawNameArtist(old(currPlaying).value.track, old(titleShift), old(composerShift) + 1)]
    {
      var track := currPlaying.value.track;
      composerShift := composerShift + 1;
      RedrawText(track);
      if composerShift == 0 {
        shiftingTitle := true;
        scrollEndedAt := now;
      }
    }

    /** UpdateSong with a track: a changed track restarts the marquee and the
        cooldown and redraws album and text; any track redraws the progress
        line at the polled position. */
    method ShowSong(p: Playing, image: Option<Image>, changed: bool, now: nat)
      requires Valid()
      modifies this
      ensures Valid() && currPlaying == Some(p) && progressOffset == 0
      ensures changed ==> State() == START && scrollEndedAt == now && redraws == old(redraws) + NewTrackRedraws(image, p)
      ensures !changed ==>
                && State() == old(State()) && scrollEndedAt == old(scrollEndedAt)
                && redraws == old(redraws) + [DrawProgress(p.progressSecs, p.track.duration)]
    {
      if changed {
        shiftingTitle := true;
        titleShift := 0;
        composerShift := 0;
        scrollEndedAt := now;
        redraws := redraws + [DrawAlbum(image)];
        RedrawText(p.track);
      }
      redraws := redraws + [DrawProgress(p.progressSecs, p.track.duration)];
      progressOffset := 0;
      currPlaying := Some(p);
    }

    /** One received message, handled at time `now` (nanoseconds). */
    method HandleEvent(msg: Message, now: nat)
      requires Valid()
      modifies this
      ensures Valid()
      // a changed track restarts the marquee and the cooldown
      ensures msg.UpdateSong? && msg.playing.Some? && msg.changed ==>
                && State() == START && scrollEndedAt == now && progressOffset == 0
                && currPlaying == msg.playing
                && redraws == old(redraws) + NewTrackRedraws(msg.image, msg.playing.value)
      // the same track again: only the progress line, the marquee goes on
      ensures msg.UpdateSong? && msg.playing.Some? && !msg.changed ==>
                && State() == old(State()) && scrollEndedAt == old(scrollEndedAt) && progressOffset == 0
                && currPlaying == msg.playing
                && redraws == old(redraws) + [DrawProgress(msg.playing.value.progressSecs, msg.playing.value.track.duration)]
      // nothing playing: the no-song screen, everything else kept
      ensures msg.UpdateSong? && msg.playing.None? ==>
                && State() == old(State()) && scrollEndedAt == old(scrollEndedAt) && progressOffset == old(progressOffset)
                && currPlaying == None
                && redraws == old(redraws) + [DrawNoSong]
      // a progress tick counts one more second on top of the polled position
      ensures msg.UpdateProgress? && old(currPlaying).Some? ==>
                && State() == old(State()) && scrollEndedAt == old(scrollEndedAt) && currPlaying == old(currPlaying)
                && progressOffset == old(progressOffset) + 1
                && redraws == old(redraws) + [DrawProgress(currPlaying.value.progressSecs + progressOffset, currPlaying.value.track.duration)]
      // an accepted scroll tick advances the marquee; finishing a field restarts the cooldown
      ensures msg.ScrollText? && old(currPlaying).Some? && CooldownOver(old(scrollEndedAt), now) ==>
                var track := old(currPlaying).value.track;
                && State() == Tick(TitleField(ts, track), ComposerField(ts, track), old(State()))
                && scrollEndedAt == (if shiftingTitle != old(shiftingTitle) then now else old(scrollEndedAt))
                && currPlaying == old(currPlaying) && progressOffset == old(progressOffset)
                && redraws == old(redraws) + [if old(shiftingTitle) then DrawNameArtist(track, old(titleShift) + 1, old(composerShift))
                                              else DrawNameArtist(track, old(titleShift), old(composerShift) + 1)]
      // anything else changes nothing
      ensures (msg.UpdateProgress? && old(currPlaying).None?)
              || (msg.ScrollText? && (old(currPlaying).None? || !CooldownOver(old(scrollEndedAt), now))) ==>
                && State() == old(State()) && scrollEndedAt == old(scrollEndedAt) && currPlaying == old(currPlaying)
                && progressOffset == old(progressOffset) && redraws == old(redraws)
    {
      match msg
      case UpdateSong(playing, image, changed) =>
        if playing.Some? {
          ShowSong(playing.value, image, changed, now);
        } else {
          currPlaying := None;
          redraws := redraws + [DrawNoSong];
        }
      case UpdateProgress =>
        if currPlaying.Some? {
          var p := currPlaying.value;
          progressOffset := progressOffset + 1;
          redraws := redraws + [DrawProgress(p.progressSecs + progressOffset, p.track.duration)];
        }
      case ScrollText =>
        if CooldownOver(scrollEndedAt, now) && currPlaying.Some? {
          AdvanceMarquee(now);
        }
    }
  }

  /** The result of `get_playing`: `Err(())` for a response whose status is
      not 2xx, or the decoded answer. Transport, JSON and decoding failures
      panic in the firmware and are not values here. */
  datatype Response = BadStatus | Fetched(playing: Option<Playing>)

  /** The image cache after polling `track`: fetched anew when the decision
      says so, dropped when the track has no image URL, kept otherwise. */
  function NextCache(lastSong: Option<string>, cache: Option<Image>, track: Track, fetch: string -> Image): (r: Option<Image>)
    ensures track.imageUrl.None? ==> r.None?
    ensures Refetch(lastSong, cache, track) ==> r == Some(fetch(track.imageUrl.value))
    ensures track.imageUrl.Some? && !Refetch(lastSong, cache, track) ==> r == cache
  {
    match track.imageUrl
    case Some(url) => if Refetch(lastSong, cache, track) then Some(fetch(url)) else cache
    case None => None
  }

  /** Polling the same track twice fetches its image at most once: the second
      poll keeps the cache the first one left. */
  lemma FetchOncePerTrack(lastSong: Option<string>, cache: Option<Image>, track: Track, fetch: string -> Image)
    ensures var cache1 := NextCache(lastSong, cache, track, fetch);
            && !Refetch(Some(track.name), cache1, track)
            && NextCache(Some(track.name), cache1, track, fetch) == cache1
  {
  }

  /** The polling thread's state. */
  class Producer {
    var lastSong: Option<string>
    var imageCache: Option<Image>

    constructor()
      ensures lastSong == None && imageCache == None
    {
      lastSong := None;
      imageCache := None;
    }

    /** One round of the polling loop; `fetch` stands for `get_image`, which in the firmware either returns an image or panics.
        Returns the messages sent to the render loop. */
    method Poll(response: Response, fetch: string -> Image) returns (sent: seq<Message>)
      modifies this
      ensures response.BadStatus? ==> sent == [] && lastSong == old(lastSong) && imageCache == old(imageCache)
      ensures response.Fetched? && response.playing.Some? ==>
                var p := response.playing.value;
                && imageCache == NextCache(old(lastSong), old(imageCache), p.track, fetch)
                && lastSong == Some(p.track.name)
                && sent == [UpdateSong(Some(p), imageCache, Changed(old(lastSong), p.track.name))]
      ensures response.Fetched? && response.playing.None? ==>
                && sent == [UpdateSong(None, None, old(lastSong).Some?)]
                && lastSong == None && imageCache == old(imageCache)
    {
      match response
      case BadStatus =>
        sent := [];
      case Fetched(playing) =>
        if playing.Some? {
          var p := playing.value;
          match p.track.imageUrl {
            case Some(url) =>
              if imageCache.None? || !(lastSong.Some? && p.track.name == lastSong.value) {
                imageCache := Some(fetch(url));
              }
            case None =>
              imageCache := None;
          }
          var changed := !(lastSong.Some? && lastSong.value == p.track.name);
          lastSong := Some(p.track.name);
          sent := [UpdateSong(Some(p), imageCache, changed)];
        } else {
          sent := [UpdateSong(None, None, lastSong.Some?)];
          lastSong := None;
        }
    }
  }
}
