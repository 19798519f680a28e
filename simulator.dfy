/** The desktop simulator's main loop (sim/src/main.rs): the same render loop
    as the firmware, except that progress ticks carry their own offset and
    the scroll cooldown runs only from the last track change; its producer
    also sends the progress ticks itself. */
module Simulator {
  import opened Common
  import opened Scroll
  import opened Marquee
  import opened RenderLoop

  /** `Message` of the simulator: a progress tick says how many seconds it is
      past the last poll. */
  datatype Message =
    | UpdateSong(playing: Option<Playing>, image: Option<Image>, changed: bool)
    | UpdateProgress(offset: nat)
    | ScrollText

  /** The render loop's state; `changedAt` is when the current track arrived. */
  class Engine {
    const ts: Typesetter
    var shiftingTitle: bool
    var titleShift: nat
    var composerShift: nat
    var currPlaying: Option<Playing>
    var changedAt: nat
    ghost var redraws: seq<Redraw>

    /** The field that is not scrolling sits at shift 0. */
    ghost predicate Valid()
      reads this
    {
      && ts.Valid()
      && (shiftingTitle ==> composerShift == 0)
      && (!shiftingTitle ==> titleShift == 0)
    }

    function State(): ScrollState
      reads this
    {
      ScrollState(shiftingTitle, titleShift, composerShift)
    }

    constructor(ts: Typesetter, now: nat)
      requires ts.Valid()
      ensures Valid() && this.ts == ts
      ensures State() == START && currPlaying == None && changedAt == now
      ensures redraws == []
    {
      this.ts := ts;
      shiftingTitle := true;
      titleShift := 0;
      composerShift := 0;
      currPlaying := None;
      changedAt := now;
      redraws := [];
    }

    /** Redraw both text lines of the current track and keep the shifts the
        draw leaves. */
    method RedrawText(track: Track)
      requires ts.Valid()
      modifies this
      ensures titleShift == Redrawn(TitleField(ts, track), old(titleShift))
      ensures composerShift == Redrawn(ComposerField(ts, track), old(composerShift))
      ensures shiftingTitle == old(shiftingTitle) && currPlaying == old(currPlaying) && changedAt == old(changedAt)
      ensures redraws == old(redraws) + [DrawNameArtist(track, old(titleShift), old(composerShift))]
    {
      var nameCanvas, composerCanvas, t, c := DrawNameAndArtist(ts, track, titleShift, composerShift);
      redraws := redraws + [DrawNameArtist(track, titleShift, composerShift)];
      titleShift, composerShift := t, c;
    }

    /** An accepted ScrollText: shift the active field by one more column,
        redraw, and hand over to the other field once the active shift
        reads 0. The cooldown is left as it is. */
    method AdvanceMarquee()
      requires Valid() && currPlaying.Some?
      modifies this
      ensures Valid()
      ensures var track := old(currPlaying).value.track;
              State() == Tick(TitleField(ts, track), ComposerField(ts, track), old(State()))
      ensures changedAt == old(changedAt) && currPlaying == old(currPlaying)
      ensures var track := old(currPlaying).value.track;
              redraws == old(redraws) + [if old(shiftingTitle) then DrawNameArtist(track, old(titleShift) + 1, old(composerShift))
                                         else DrawNameArtist(track, old(titleShift), old(composerShift) + 1)]
    {
      if shiftingTitle {
        AdvanceTitle();
      } else {
        AdvanceComposer();
      }
    }

    /** The title is scrolling: one more column, and the artist line takes
        over once the title's shift reads 0. */
    method AdvanceTitle()
      requires Valid() && currPlaying.Some? && shiftingTitle
      modifies this
      ensures Valid()
      ensures var track := old(currPlaying).value.track;
              State() == Tick(TitleField(ts, track), ComposerField(ts, track), old(State()))
      ensures changedAt == old(changedAt) && currPlaying == old(currPlaying)
      ensures redraws == old(redraws) + [DrawNameArtist(old(currPlaying).value.track, old(titleShift) + 1, old(composerShift))]
    {
      var track := currPlaying.value.track;
      titleShift := titleShift + 1;
      RedrawText(track);
      if titleShift == 0 {
        shiftingTitle := false;
      }
    }

    /** The artist line is scrolling: one more column, and the title takes
        over once the artist line's shift reads 0. */
    method AdvanceComposer()
      requires Valid() && currPlaying.Some? && !shiftingTitle
      modifies this
      ensures Valid()
      ensures var track := old(currPlaying).value.track;
              State() == Tick(TitleField(ts, track), ComposerField(ts, track), old(State()))
      ensures changedAt == old(changedAt) && currPlaying == old(currPlaying)
      ensures redraws == old(redraws) + [DrawNameArtist(old(currPlaying).value.track, old(titleShift), old(composerShift) + 1)]
    {
      var track := currPlaying.value.track;
      composerShift := composerShift + 1;
      RedrawText(track);
      if composerShift == 0 {
        shiftingTitle := true;
      }
    }

    /** UpdateSong with a track: a changed track restarts the marquee and the
        cooldown and redraws album and text; any track redraws the progress
        line at the polled position. */
    method ShowSong(p: Playing, image: Option<Image>, changed: bool, now: nat)
      requires Valid()
      modifies this
      ensures Valid() && currPlaying == Some(p)
      ensures changed ==> State() == START && changedAt == now && redraws == old(redraws) + NewTrackRedraws(image, p)
      ensures !changed ==>
                && State() == old(State()) && changedAt == old(changedAt)
                && redraws == old(redraws) + [DrawProgress(p.progressSecs, p.track.duration)]
    {
      if changed {
        shiftingTitle := true;
        titleShift := 0;
        composerShift := 0;
        changedAt := now;
        redraws := redraws + [DrawAlbum(image)];
        RedrawText(p.track);
      }
      redraws := redraws + [DrawProgress(p.progressSecs, p.track.duration)];
      currPlaying := Some(p);
    }

    /** One received message, handled at time `now` (nanoseconds). */
    method HandleEvent(msg: Message, now: nat)
      requires Valid()
      modifies this
      ensures Valid()
      // a changed track restarts the marquee and the cooldown
      ensures msg.UpdateSong? && msg.playing.Some? && msg.changed ==>
                && State() == START && changedAt == now && currPlaying == msg.playing
                && redraws == old(redraws) + NewTrackRedraws(msg.image, msg.playing.value)
      // the same track again: only the progress line
      ensures msg.UpdateSong? && msg.playing.Some? && !msg.changed ==>
                && State() == old(State()) && changedAt == old(changedAt) && currPlaying == msg.playing
                && redraws == old(redraws) + [DrawProgress(msg.playing.value.progressSecs, msg.playing.value.track.duration)]
      // nothing playing: the no-song screen
      ensures msg.UpdateSong? && msg.playing.None? ==>
                && State() == old(State()) && changedAt == old(changedAt) && currPlaying == None
                && redraws == old(redraws) + [DrawNoSong]
      // a progress tick is drawn at its offset past the polled position; nothing is stored
      ensures msg.UpdateProgress? && old(currPlaying).Some? ==>
                && State() == old(State()) && changedAt == old(changedAt) && currPlaying == old(currPlaying)
                && redraws == old(redraws) + [DrawProgress(currPlaying.value.progressSecs + msg.offset, currPlaying.value.track.duration)]
      // an accepted scroll tick advances the marquee; the cooldown is not restarted
      ensures msg.ScrollText? && old(currPlaying).Some? && CooldownOver(old(changedAt), now) ==>
                var track := old(currPlaying).value.track;
                && State() == Tick(TitleField(ts, track), ComposerField(ts, track), old(State()))
                && changedAt == old(changedAt) && currPlaying == old(currPlaying)
                && redraws == old(redraws) + [if old(shiftingTitle) then DrawNameArtist(track, old(titleShift) + 1, old(composerShift))
                                              else DrawNameArtist(track, old(titleShift), old(composerShift) + 1)]
      // anything else changes nothing
      ensures (msg.UpdateProgress? && old(currPlaying).None?)
              || (msg.ScrollText? && (old(currPlaying).None? || !CooldownOver(old(changedAt), now))) ==>
                && State() == old(State()) && changedAt == old(changedAt) && currPlaying == old(currPlaying)
                && redraws == old(redraws)
    {
      match msg
      case UpdateSong(playing, image, changed) =>
        if playing.Some? {
          ShowSong(playing.value, image, changed, now);
        } else {
          currPlaying := None;
          redraws := redraws + [DrawNoSong];
        }
      case UpdateProgress(offset) =>
        if currPlaying.Some? {
          var p := currPlaying.value;
          redraws := redraws + [DrawProgress(p.progressSecs + offset, p.track.duration)];
        }
      case ScrollText =>
        if CooldownOver(changedAt, now) && currPlaying.Some? {
          AdvanceMarquee();
        }
    }
  }

  /** The result of the `playing` request: the request itself failed (which
      ends the producer), or a body, where a body that does not decode counts
      as nothing playing. */
  datatype Response = Unreachable | Body(playing: Option<Playing>)

  /** The image cache after polling `track`, where `fetch` is the image
      request with decoding and resizing (None: it failed, which ends the
      producer). Without an image URL the old image is kept. */
  function NextCache(lastSong: Option<string>, cache: Option<Image>, track: Track, fetch: string -> Option<Image>): (r: Option<Option<Image>>)
    ensures !Refetch(lastSong, cache, track) ==> r == Some(cache)
    ensures Refetch(lastSong, cache, track) ==>
              r == match fetch(track.imageUrl.value) case Some(image) => Some(Some(image)) case None => None
  {
    if Refetch(lastSong, cache, track) then
      match fetch(track.imageUrl.value)
      case Some(image) => Some(Some(image))
      case None => None
    else Some(cache)
  }

  /** Unlike the firmware, a track without an image URL leaves the cached
      image of the previous track in place. */
  lemma NoUrlKeepsCache(lastSong: Option<string>, cache: Option<Image>, track: Track, fetch: string -> Option<Image>)
    requires track.imageUrl.None?
    ensures NextCache(lastSong, cache, track, fetch) == Some(cache)
  {
  }

  /** The progress ticks sent after a track update: offsets 1, 2, ..., k. */
  function ProgressTicks(k: nat): (r: seq<Message>)
    ensures |r| == k
    ensures forall i :: 0 <= i < k ==> r[i] == UpdateProgress(i + 1)
  {
    seq(k, i requires 0 <= i < k => UpdateProgress(i + 1))
  }

  /** The polling thread's state; `running` turns false once a request fails. */
  class Producer {
    var lastSong: Option<string>
    var imageCache: Option<Image>
    var running: bool

    constructor()
      ensures lastSong == None && imageCache == None && running
    {
      lastSong := None;
      imageCache := None;
      running := true;
    }

    /** One round of the polling loop. Returns the messages sent to the
        render loop. */
    method Poll(response: Response, fetch: string -> Option<Image>) returns (sent: seq<Message>)
      modifies this
      ensures !old(running) ==> sent == [] && lastSong == old(lastSong) && imageCache == old(imageCache) && !running
      ensures old(running) && response.Unreachable? ==>
                sent == [] && lastSong == old(lastSong) && imageCache == old(imageCache) && !running
      ensures old(running) && response.Body? && response.playing.Some? ==>
                var p := response.playing.value;
                match NextCache(old(lastSong), old(imageCache), p.track, fetch)
                case None =>
                  sent == [] && lastSong == old(lastSong) && imageCache == old(imageCache) && !running
                case Some(cache) =>
                  && imageCache == cache && lastSong == Some(p.track.name) && running
                  && sent == [UpdateSong(Some(p), cache, Changed(old(lastSong), p.track.name))] + ProgressTicks(5)
      ensures old(running) && response.Body? && response.playing.None? ==>
                && sent == [UpdateSong(None, None, old(lastSong).Some?)]
                && lastSong == None && imageCache == old(imageCache) && running
    {
      sent := [];
      if !running {
        return;
      }
      match response
      case Unreachable =>
        running := false;
      case Body(playing) =>
        if playing.Some? {
          var p := playing.value;
          if p.track.imageUrl.Some? && (imageCache.None? || !(lastSong.Some? && p.track.name == lastSong.value)) {
            var image := fetch(p.track.imageUrl.value);
            if image.None? {
              running := false;
              return;
            }
            imageCache := image;
          }
          var changed := !(lastSong.Some? && lastSong.value == p.track.name);
          lastSong := Some(p.track.name);
          sent := [UpdateSong(Some(p), imageCache, changed)];
          for i := 1 to 6
            invariant sent == [UpdateSong(Some(p), imageCache, changed)] + ProgressTicks(i - 1)
          {
            sent := sent + [UpdateProgress(i)];
          }
        } else {
          sent := [UpdateSong(None, None, lastSong.Some?)];
          lastSong := None;
        }
    }
  }
}
