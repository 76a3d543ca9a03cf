/** The parsed form of an HLS playlist. */
module Playlist {
  import opened Numbers

  datatype PlaylistType = Master | MediaVOD | MediaLive

  datatype Resolution = Resolution(width: nat, height: nat)

  datatype Segment = Segment(uri: string, duration: Float, sequenceIndex: nat, isDiscontinuity: bool)

  datatype Variant = Variant(uri: string, codecs: string, bandwidth: nat,
                             resolution: Resolution, frameRate: Float)

  datatype Playlist = Playlist(
    playlistType: PlaylistType, targetDuration: nat, mediaSequence: nat, hasEndlist: bool,
    segments: seq<Segment>, variants: seq<Variant>)

  const NO_VARIANT := Variant("", "", 0, Resolution(0, 0), Finite(0.0))

  const EMPTY_PLAYLIST := Playlist(MediaVOD, 0, 0, false, [], [])

  ghost predicate SortedByBandwidth(vs: seq<Variant>) {
    forall i, j | 0 <= i < j < |vs| :: vs[i].bandwidth <= vs[j].bandwidth
  }
}
