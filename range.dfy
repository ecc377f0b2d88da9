/**
 * RangeStream(begin, end, totalLength): a pass-through stage that emits only the bytes whose
 * position in the incoming stream lies in the inclusive range [begin, end]. A stream is modelled
 * by its whole byte content, so the stage is a slice; positions outside the stream select nothing.
 */
module RangeStreams {
  import opened Common

  function Range(s: seq<byte>, begin: int, end: int): (r: seq<byte>)
    ensures |r| <= |s|
    ensures 0 <= begin <= end + 1 <= |s| ==> r == s[begin..end + 1]
    ensures 0 <= begin <= |s| <= end + 1 ==> r == s[begin..]
    ensures end < begin ==> r == []
    ensures |s| <= begin ==> r == []
    ensures begin < 0 <= end + 1 <= |s| ==> r == s[..end + 1]
  {
    var lo := if begin < 0 then 0 else if begin > |s| then |s| else begin;
    var hi := if end + 1 < lo then lo else if end + 1 > |s| then |s| else end + 1;
    s[lo..hi]
  }
}
