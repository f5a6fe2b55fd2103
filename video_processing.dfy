/** Bounded frame extraction from a video file. */
module VideoProcessing {
  import opened Types

  const DEFAULT_MAX_FRAMES: nat := 10

  /**
   * A video file as `cv2.VideoCapture` sees it: whether the path exists,
   * whether the decoder opens it, and what each successive `read()` returns
   * (a failed read is `None`; reads past the end of `stream` fail too).
   */
  datatype Video = Video(present: bool, opens: bool, stream: seq<Option<Frame>>) {
    predicate Opened() { present && opens }
  }

  /** The frames read in order, up to `cap` of them, stopping at the first failed read. */
  function ReadablePrefix(stream: seq<Option<Frame>>, cap: nat): (frames: seq<Frame>)
    ensures |frames| <= cap && |frames| <= |stream|
    ensures forall i :: 0 <= i < |frames| ==> stream[i] == Some(frames[i])
    ensures |frames| < cap ==> |frames| == |stream| || stream[|frames|].None?
  {
    if cap == 0 || stream == [] || stream[0].None? then []
    else [stream[0].value] + ReadablePrefix(stream[1..], cap - 1)
  }

  /** What a fresh capture of `video` yields when read at most `cap` times. */
  function Captured(video: Video, cap: nat): seq<Frame>
  {
    if video.Opened() then ReadablePrefix(video.stream, cap) else []
  }

  /** `extract_frames(video_path, max_frames)`. */
  method ExtractFrames(video: Video, maxFrames: nat) returns (frames: seq<Frame>)
    ensures frames == Captured(video, maxFrames)
    ensures |frames| <= maxFrames
    ensures !video.Opened() || video.stream == [] ==> frames == []
  {
    frames := [];
    if !video.Opened() {
      return;
    }
    while |frames| < maxFrames
      invariant |frames| <= maxFrames && |frames| <= |video.stream|
      invariant forall i :: 0 <= i < |frames| ==> video.stream[i] == Some(frames[i])
      decreases maxFrames - |frames|
    {
      if |frames| == |video.stream| || video.stream[|frames|].None? {
        break;
      }
      frames := frames + [video.stream[|frames|].value];
    }
    PrefixUnique(video.stream, maxFrames, frames);
  }

  /** Any run of successful reads that ends at the cap, at the end of the stream or at a failed read is the readable prefix. */
  lemma {:induction false} PrefixUnique(stream: seq<Option<Frame>>, cap: nat, frames: seq<Frame>)
    requires |frames| <= cap && |frames| <= |stream|
    requires forall i :: 0 <= i < |frames| ==> stream[i] == Some(frames[i])
    requires |frames| == cap || |frames| == |stream| || stream[|frames|].None?
    ensures frames == ReadablePrefix(stream, cap)
  {
    if frames != [] {
      assert stream[0] == Some(frames[0]);
      forall i | 0 <= i < |frames| - 1 ensures stream[1..][i] == Some(frames[1..][i]) {
        assert stream[i + 1] == Some(frames[i + 1]);
      }
      PrefixUnique(stream[1..], cap - 1, frames[1..]);
      assert frames == [frames[0]] + frames[1..];
    } else if cap > 0 && stream != [] {
      assert stream[0].None?;
    }
  }
}
