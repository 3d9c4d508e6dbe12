/** The table of contents of a disc. */
module TableOfContents {
  import opened Options

  /** A time stamp, as read from the disc. */
  datatype MSF = MSF(minute: nat, second: nat, frame: nat)

  datatype TocEntry = TocEntry(start: MSF, track: nat, isrc: string, title: string, performer: string)

  datatype Toc = Toc(upc: string, title: string, performer: string, tracks: seq<TocEntry>)

  /** Absolute frame number. */
  function ToFrame(t: MSF): nat {
    (t.minute * 60 + t.second) * 75 + t.frame
  }

  /** The time stamp of a frame number. */
  function ToMSF(frame: nat): MSF {
    MSF(frame / 75 / 60, frame / 75 % 60, frame % 75)
  }

  /** Time stamps and frame numbers convert into each other. */
  lemma FrameRoundTrip(t: MSF, frame: nat)
    ensures t.second < 60 && t.frame < 75 ==> ToMSF(ToFrame(t)) == t
    ensures ToFrame(ToMSF(frame)) == frame
    ensures ToMSF(frame).second < 60 && ToMSF(frame).frame < 75
  {
    var seconds := t.minute * 60 + t.second;
    if t.second < 60 && t.frame < 75 {
      assert ToFrame(t) / 75 == seconds && ToFrame(t) % 75 == t.frame;
      assert seconds / 60 == t.minute && seconds % 60 == t.second;
    }
  }

  /** The other conversion, used for records from CDDB. It takes the seconds modulo themselves,
      which is a division by zero for less than one second, and otherwise 0. */
  function FromFrame(frame: nat): Option<MSF> {
    var second := frame / 75;
    if second == 0 then None else Some(MSF(second / 60, second % second, frame % 75))
  }

  /** So it inverts ToFrame for whole minutes only, frames aside, and not for the first one. */
  lemma FromFrameLosesSeconds(t: MSF)
    requires t.second < 60 && t.frame < 75
    ensures FromFrame(ToFrame(t)) == Some(t) <==> t.second == 0 && t.minute > 0
    ensures FromFrame(ToFrame(t)) == None <==> t.second == 0 && t.minute == 0
  {
    var seconds := t.minute * 60 + t.second;
    assert ToFrame(t) / 75 == seconds && ToFrame(t) % 75 == t.frame;
    assert seconds / 60 == t.minute;
    assert seconds > 0 ==> seconds % seconds == 0;
  }

  /** The start times of all entries, lead-out included. */
  function Times(tracks: seq<TocEntry>): (ts: seq<MSF>)
    ensures |ts| == |tracks|
    ensures forall i | 0 <= i < |tracks| :: ts[i] == tracks[i].start
  {
    seq(|tracks|, i requires 0 <= i < |tracks| => tracks[i].start)
  }
}
