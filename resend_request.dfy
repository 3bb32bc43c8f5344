// The resend walk shared by the senders that keep a history of sent audio
// messages (PipelineResend in the ohSongcast Windows driver and
// OhmSenderDriver::Resend). A resend request is a list of big-endian frame
// numbers in ascending order; the history is walked oldest first and a
// reader over the request advances past every requested frame that lies
// before the message in hand.
module ResendRequest {
  import opened Octets

  /** The signed difference of two 32-bit frame numbers: TInt of a TUint
      subtraction. */
  function ToInt32(x: U32): (r: int)
    ensures -0x8000_0000 <= r < 0x8000_0000
    ensures r == 0 <==> x == 0
  {
    if x < 0x8000_0000 then x else x - 0x1_0000_0000
  }

  /** The signed difference frame - msgFrame, as the TInt the source
      assigns the TUint subtraction to. */
  function Diff(frame: U32, msgFrame: U32): (d: int)
    ensures d == 0 <==> frame == msgFrame
  {
    ToInt32(Sub32(frame, msgFrame))
  }

  /** The j-th frame number of a resend request: a big-endian u32 list. */
  function RequestFrame(request: seq<Byte>, j: nat): U32
    requires 4 * j + 4 <= |request|
  {
    DecodeBe32(request, 4 * j)
  }

  ghost predicate Requested(request: seq<Byte>, f: U32)
  {
    exists j: nat :: 4 * j + 4 <= |request| && RequestFrame(request, j) == f
  }

  /** The reader over the request: frame is the entry at
      pos, and frames entries remain after it. */
  predicate Cursor(request: seq<Byte>, pos: nat, frames: nat, frame: U32)
  {
    4 * pos + 4 <= |request| && pos + frames == |request| / 4 - 1
    && frame == RequestFrame(request, pos)
  }

  /** The body of the history loop for one message, without
      the re-queueing: the message's frame is compared with the request's
      current entry and the reader advances past every entry that lies
      before it. hit says the message is to be resent, which happens only
      for a requested frame; a message whose frame is the current entry is
      always hit. Once the request is used up (found) nothing more is
      compared. */
  method MatchFrame(request: seq<Byte>, msgFrame: U32, pos0: nat, frames0: nat, frame0: U32, found0: bool)
    returns (pos: nat, frames: nat, frame: U32, found: bool, hit: bool)
    requires !found0 ==> Cursor(request, pos0, frames0, frame0)
    ensures !found ==> Cursor(request, pos, frames, frame)
    ensures found0 ==> found && !hit
    ensures hit ==> Requested(request, msgFrame)
    ensures !found0 && frame0 == msgFrame ==> hit
    ensures !found0 ==> pos0 <= pos
  {
    pos, frames, frame, found, hit := pos0, frames0, frame0, found0, false;
    if found {
      return;
    }
    var diff := Diff(frame, msgFrame);
    if diff == 0 {
      assert RequestFrame(request, pos) == msgFrame;
      hit := true;
      if frames > 0 {
        frames, pos := frames - 1, pos + 1;
        frame := RequestFrame(request, pos);
      } else {
        found := true;
      }
      return;
    }
    while diff < 0
      invariant !found ==> Cursor(request, pos, frames, frame)
      invariant hit ==> Requested(request, msgFrame)
      invariant found ==> diff >= 0
      invariant pos0 <= pos
      decreases frames, if found then 0 else 1
    {
      // frames-- > 0 on a TUint: once it reaches 0 found is set and frames
      // is not used again.
      if frames > 0 {
        frames, pos := frames - 1, pos + 1;
        frame := RequestFrame(request, pos);
      } else {
        found := true;
        break;
      }
      diff := Diff(frame, msgFrame);
      if diff == 0 {
        assert RequestFrame(request, pos) == msgFrame;
        hit := true;
        if frames > 0 {
          frames, pos := frames - 1, pos + 1;
          frame := RequestFrame(request, pos);
        } else {
          found := true;
        }
        break;
      }
    }
  }
}
