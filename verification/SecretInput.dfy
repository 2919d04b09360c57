// Piping a secret to a guest process (crates/gascan/src/guest.rs) and the binder that ties an attach stream to one
// session (crates/gascan-proto/src/lib.rs).
module SecretInput {
  import opened Wrappers
  import opened Bytes

  const FRAME_BYTES: nat := 16 * 1024

  datatype Payload = Stdin(bytes: seq<byte>) | Close

  datatype ClientFrame = ClientFrame(payload: Payload, sessionToken: seq<byte>)

  // ------------------------------------------------------------------------ what is sent

  /** The secret in frames of at most `FRAME_BYTES`; an empty secret is one empty frame. */
  function Frames(secret: seq<byte>): (frames: seq<Payload>)
    decreases |secret|
  {
    if |secret| <= FRAME_BYTES then [Stdin(secret)] else [Stdin(secret[..FRAME_BYTES])] + Frames(secret[FRAME_BYTES..])
  }

  /** What follows once `offset` bytes of a secret have gone out. */
  function Remaining(stdin: Option<seq<byte>>, offset: nat, emptySent: bool): seq<Payload>
    requires stdin.Some? ==> offset <= |stdin.value|
  {
    if stdin.None? then [Close]
    else if stdin.value == [] then (if emptySent then [Close] else [Stdin([]), Close])
    else if offset < |stdin.value| then Frames(stdin.value[offset..]) + [Close]
    else [Close]
  }

  function Content(payloads: seq<Payload>): seq<byte> {
    if payloads == [] then [] else (if payloads[0].Stdin? then payloads[0].bytes else []) + Content(payloads[1..])
  }

  /** Input frames within the limit, then one close. */
  predicate Grammar(payloads: seq<Payload>) {
    && payloads != []
    && payloads[|payloads| - 1] == Close
    && forall k | 0 <= k < |payloads| - 1 :: payloads[k].Stdin? && |payloads[k].bytes| <= FRAME_BYTES
  }

  lemma {:induction false} ContentConcat(a: seq<Payload>, b: seq<Payload>)
    ensures Content(a + b) == Content(a) + Content(b)
  {
    if a == [] {
      assert a + b == b;
    } else {
      ContentConcat(a[1..], b);
      assert (a + b)[1..] == a[1..] + b && (a + b)[0] == a[0];
      ConcatAssociates(if a[0].Stdin? then a[0].bytes else [], Content(a[1..]), Content(b));
    }
  }

  lemma {:induction false} FramesCarrySecret(secret: seq<byte>)
    ensures Content(Frames(secret)) == secret && Frames(secret) != []
    ensures forall k | 0 <= k < |Frames(secret)| :: Frames(secret)[k].Stdin? && |Frames(secret)[k].bytes| <= FRAME_BYTES
    decreases |secret|
  {
    if |secret| <= FRAME_BYTES {
      assert Content([Stdin(secret)]) == secret + Content([]);
    } else {
      var head, rest := [Stdin(secret[..FRAME_BYTES])], Frames(secret[FRAME_BYTES..]);
      FramesCarrySecret(secret[FRAME_BYTES..]);
      ContentConcat(head, rest);
      assert secret[..FRAME_BYTES] + secret[FRAME_BYTES..] == secret;
    }
  }

  // ------------------------------------------------------------------------------ stream

  class Stream {
    const token: seq<byte>
    var stdin: Option<seq<byte>>
    var offset: nat
    var emptySent: bool
    var closeSent: bool

    ghost predicate Valid()
      reads this
    {
      stdin.Some? ==> offset <= |stdin.value|
    }

    /** What polling will still give. */
    ghost function Rest(): seq<Payload>
      requires Valid()
      reads this
    {
      if closeSent then [] else Remaining(stdin, offset, emptySent)
    }

    constructor (token: seq<byte>, stdin: Option<seq<byte>>)
      ensures Valid() && this.token == token
      ensures Rest() == if stdin.Some? then Frames(stdin.value) + [Close] else [Close]
    {
      this.token, this.stdin, this.offset, this.emptySent, this.closeSent := token, stdin, 0, false, false;
      assert stdin.Some? ==> stdin.value[0..] == stdin.value;
    }

    /** `poll_next` */
    method Poll() returns (frame: Option<ClientFrame>)
      requires Valid()
      modifies this
      ensures Valid()
      ensures old(Rest()) == [] ==> frame == None && Rest() == []
      ensures old(Rest()) != [] ==> frame == Some(ClientFrame(old(Rest())[0], token)) && Rest() == old(Rest())[1..]
    {
      if closeSent { return None; }
      if stdin.Some? {
        var bytes := stdin.value;
        if |bytes| == 0 && !emptySent {
          emptySent := true;
          return Some(ClientFrame(Stdin([]), token));
        }
        if offset < |bytes| {
          var end := if offset + FRAME_BYTES < |bytes| then offset + FRAME_BYTES else |bytes|;
          ghost var left := bytes[offset..];
          assert end < |bytes| ==> left[..FRAME_BYTES] == bytes[offset..end] && left[FRAME_BYTES..] == bytes[end..];
          assert end == |bytes| ==> bytes[offset..end] == left;
          var chunk := bytes[offset..end];
          offset := end;
          return Some(ClientFrame(Stdin(chunk), token));
        }
        stdin := None;
      }
      closeSent := true;
      return Some(ClientFrame(Close, token));
    }
  }

  // ------------------------------------------------------------------------------ binder

  datatype BindError = EmptyToken | Mismatch

  class Binder {
    var token: Option<seq<byte>>

    constructor ()
      ensures token == None
    {
      token := None;
    }

    /** `validate_frame`: the first valid token binds, and every later frame must carry it. */
    method ValidateFrame(candidate: seq<byte>) returns (r: Result<(), BindError>)
      modifies this
      ensures r.Ok? <==> candidate != [] && (old(token) == None || old(token) == Some(candidate))
      ensures token == if r.Ok? then Some(candidate) else old(token)
      ensures r == Err(EmptyToken) <==> candidate == []
    {
      if candidate == [] { return Err(EmptyToken); }
      match token
      case Some(bound) =>
        if bound != candidate { return Err(Mismatch); }
        return Ok(());
      case None =>
        token := Some(candidate);
        return Ok(());
    }
  }

  // -------------------------------------------------------------------------- whole runs

  /**
   * Polling to exhaustion ends. The payloads are input frames within the limit and then exactly one close; together
   * they carry the secret; no secret and an empty secret differ; and a binder accepts every frame exactly when the
   * token is not empty.
   */
  method PollToEnd(token: seq<byte>, stdin: Option<seq<byte>>) returns (frames: seq<ClientFrame>, accepted: bool)
    ensures Grammar(Payloads(frames))
    ensures Content(Payloads(frames)) == if stdin.Some? then stdin.value else []
    ensures stdin == None <==> Payloads(frames) == [Close]
    ensures forall k | 0 <= k < |frames| :: frames[k].sessionToken == token
    ensures accepted <==> token != []
  {
    frames := PollAll(token, stdin);
    WholeStream(stdin, Payloads(frames));
    accepted := BindAll(token, frames);
  }

  method PollAll(token: seq<byte>, stdin: Option<seq<byte>>) returns (frames: seq<ClientFrame>)
    ensures Payloads(frames) == if stdin.Some? then Frames(stdin.value) + [Close] else [Close]
    ensures forall k | 0 <= k < |frames| :: frames[k].sessionToken == token
  {
    var stream := new Stream(token, stdin);
    ghost var all := stream.Rest();
    frames := [];
    var exhausted := false;
    while !exhausted
      invariant stream.Valid() && stream.token == token
      invariant |frames| <= |all| && Payloads(frames) == all[..|frames|] && stream.Rest() == all[|frames|..]
      invariant forall k | 0 <= k < |frames| :: frames[k].sessionToken == token
      invariant exhausted ==> |frames| == |all|
      decreases |all| - |frames|, !exhausted
    {
      var frame := stream.Poll();
      if frame.None? {
        exhausted := true;
      } else {
        NextSlice(all, |frames|);
        PayloadsGrow(frames, frame.value);
        frames := frames + [frame.value];
      }
    }
    assert all[..|all|] == all;
  }

  lemma PayloadsGrow(frames: seq<ClientFrame>, frame: ClientFrame)
    ensures Payloads(frames + [frame]) == Payloads(frames) + [frame.payload]
  {
  }

  lemma NextSlice(all: seq<Payload>, n: nat)
    requires n < |all|
    ensures all[n..][0] == all[n] && all[n..][1..] == all[n + 1..] && all[..n + 1] == all[..n] + [all[n]]
  {
  }

  /** A fresh binder shown every frame of a stream. */
  method BindAll(token: seq<byte>, frames: seq<ClientFrame>) returns (accepted: bool)
    requires frames != [] && forall k | 0 <= k < |frames| :: frames[k].sessionToken == token
    ensures accepted <==> token != []
  {
    var binder := new Binder();
    accepted := true;
    for n := 0 to |frames|
      invariant accepted <==> n == 0 || token != []
      invariant binder.token == if n == 0 || token == [] then None else Some(token)
    {
      var verdict := binder.ValidateFrame(frames[n].sessionToken);
      accepted := accepted && verdict.Ok?;
    }
  }

  function Payloads(frames: seq<ClientFrame>): (p: seq<Payload>)
    ensures |p| == |frames|
  {
    seq(|frames|, k requires 0 <= k < |frames| => frames[k].payload)
  }

  lemma WholeStream(stdin: Option<seq<byte>>, all: seq<Payload>)
    requires all == if stdin.Some? then Frames(stdin.value) + [Close] else [Close]
    ensures Grammar(all) && Content(all) == (if stdin.Some? then stdin.value else [])
      && (stdin == None <==> all == [Close])
  {
    assert Content([Close]) == [] + Content([]);
    if stdin.Some? {
      FramesCarrySecret(stdin.value);
      ContentConcat(Frames(stdin.value), [Close]);
    }
  }
}
