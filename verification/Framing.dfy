/** The errors of the trait layer and the message framing of FIPS 204, sections 5.2 and 5.3. */
module Framing {
  import opened Wrappers
  import opened Bytes

  datatype PqError =
    | InvalidLength(expected: nat, actual: nat)
    | BufferTooSmall(needed: nat, available: nat)
    | MalformedEncoding
    | ContextTooLong(length: nat)
    | VerificationFailed
    | SigningFailed

  const MAX_CONTEXT_LEN := 255

  function CheckContext(context: seq<byte>): Result<(), PqError> {
    if |context| > MAX_CONTEXT_LEN then Err(ContextTooLong(|context|)) else Ok(())
  }

  function CheckLen(actual: nat, expected: nat): Result<(), PqError> {
    if actual != expected then Err(InvalidLength(expected, actual)) else Ok(())
  }

  /** What Algorithms 2 and 3 hand to the internal signer and verifier: 0x00 || len(ctx) || ctx || M. */
  function Frame(context: seq<byte>, message: seq<byte>): seq<byte>
    requires CheckContext(context).Ok?
  {
    [0, |context|] + (context + message)
  }

  /** Where everything is in a framed message. */
  lemma FrameLayout(context: seq<byte>, message: seq<byte>)
    requires |context| <= 255
    ensures var f := Frame(context, message);
      && |f| == 2 + |context| + |message| && f[0] == 0 && f[1] == |context|
      && f[2..2 + |context|] == context && f[2 + |context|..] == message
  {
  }

  /** Reading a framed message back: the zero byte, the length byte, that many context bytes, the message. */
  function Unframe(framed: seq<byte>): Option<(seq<byte>, seq<byte>)> {
    if |framed| < 2 || framed[0] != 0 then None
    else
      var end: nat := 2 + framed[1] as int;
      if |framed| < end then None else Some((framed[2..end], framed[end..]))
  }

  /** The framed bytes are exactly those that read back as this context and this message. */
  lemma FrameRoundTrip(framed: seq<byte>, context: seq<byte>, message: seq<byte>)
    ensures Unframe(framed) == Some((context, message)) <==>
            CheckContext(context).Ok? && framed == Frame(context, message)
  {
    if Unframe(framed) == Some((context, message)) {
      assert framed == [0, framed[1]] + (context + message);
    }
    if CheckContext(context).Ok? && framed == Frame(context, message) {
      assert framed[2..2 + |context|] == context && framed[2 + |context|..] == message;
    }
  }

  /** Contexts that pass `check_context` frame injectively: the framed bytes fix context and message. */
  lemma FrameInjective(c1: seq<byte>, m1: seq<byte>, c2: seq<byte>, m2: seq<byte>)
    requires CheckContext(c1).Ok? && CheckContext(c2).Ok?
    ensures Frame(c1, m1) == Frame(c2, m2) <==> c1 == c2 && m1 == m2
  {
    FrameRoundTrip(Frame(c1, m1), c1, m1);
    FrameRoundTrip(Frame(c2, m2), c2, m2);
  }

  /**
   `check_context` is what makes it so. Were the length byte reduced modulo 256 instead, a context of
   256 bytes would frame like the empty context with those bytes moved into the message.
   */
  lemma WrappedLengthByteIsAmbiguous(context: seq<byte>, message: seq<byte>)
    requires |context| == 256
    ensures CheckContext(context) == Err(ContextTooLong(256))
    ensures [0, |context| % 256] + (context + message) == Frame([], context + message)
  {
    assert [] + (context + message) == context + message;
  }
}
