/** What the device's and the simulator's main loops share: the redraws the
    render loop issues, the scroll cooldown, and the producer's decisions
    about a freshly polled track. */
module RenderLoop {
  import opened Common

  /** One call into the graphics crate, with the arguments that decide what
      it draws: `draw_album_cover`, `draw_current_name_and_artist` (with the
      shifts it was given), `draw_current_progress`, `draw_no_song`. */
  datatype Redraw =
    | DrawAlbum(image: Option<Image>)
    | DrawNameArtist(track: Track, titleShift: nat, composerShift: nat)
    | DrawProgress(secs: nat, duration: nat)
    | DrawNoSong

  /** The redraws of a changed track: album, both text lines from shift 0,
      then the progress line at the polled position. */
  function NewTrackRedraws(image: Option<Image>, playing: Playing): (r: seq<Redraw>)
    ensures |r| == 3 && r[0].DrawAlbum? && r[1].DrawNameArtist? && r[2].DrawProgress?
    ensures r[0] == DrawAlbum(image)
    ensures r[1].track == playing.track && r[1].titleShift == 0 && r[1].composerShift == 0
    ensures r[2] == DrawProgress(playing.progressSecs, playing.track.duration)
  {
    [DrawAlbum(image), DrawNameArtist(playing.track, 0, 0), DrawProgress(playing.progressSecs, playing.track.duration)]
  }

  /** Time is counted in nanoseconds; scrolling waits for more than 3 s. */
  const SCROLL_COOLDOWN: nat := 3_000_000_000

  /** `Instant::elapsed`: the time since `since`, never negative. */
  function Elapsed(since: nat, now: nat): (r: nat)
    ensures since <= now ==> r == now - since
    ensures now < since ==> r == 0
  {
    if now >= since then now - since else 0
  }

  /** Scrolling may go on once more than 3 s have passed since `since`. */
  function CooldownOver(since: nat, now: nat): (r: bool)
    ensures r <==> now > since + SCROLL_COOLDOWN
  {
    Elapsed(since, now) > SCROLL_COOLDOWN
  }

  /** Once over, the cooldown stays over until it is restarted. */
  lemma CooldownStaysOver(since: nat, now: nat, later: nat)
    requires CooldownOver(since, now) && now <= later
    ensures CooldownOver(since, later)
  {
  }

  /** A cooldown restarted at `now` is not over at `now`, nor for 3 s after. */
  lemma CooldownRestart(now: nat, later: nat)
    requires later <= now + SCROLL_COOLDOWN
    ensures !CooldownOver(now, later)
  {
  }

  /** `changed`: the polled track is new unless the last polled name is its name. */
  function Changed(lastSong: Option<string>, name: string): (r: bool)
    ensures r <==> lastSong != Some(name)
  {
    !(lastSong.Some? && lastSong.value == name)
  }

  /** The image is fetched when the track has an image URL and either nothing
      is cached or the track changed. */
  function Refetch(lastSong: Option<string>, cache: Option<Image>, track: Track): (r: bool)
    ensures r <==> track.imageUrl.Some? && (cache.None? || lastSong != Some(track.name))
  {
    track.imageUrl.Some? && (cache.None? || Changed(lastSong, track.name))
  }

  /** A poll remembers the name it saw, so polling the same track again does
      not count as a change, while any other name does. */
  lemma ChangedAgainstLastPoll(name: string, next: string)
    ensures !Changed(Some(name), name)
    ensures Changed(Some(name), next) <==> next != name
    ensures Changed(None, next)
  {
  }

  /** With an image cached, a repeated poll of the same track never fetches. */
  lemma NoRefetchWhileCached(name: string, image: Image, track: Track)
    requires track.name == name
    ensures !Refetch(Some(name), Some(image), track)
  {
  }
}
