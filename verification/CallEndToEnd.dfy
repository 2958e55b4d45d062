/**
  The layers together: after the key exchange of two engines, signaling messages and audio
  frames of either side arrive at the other.
*/
module CallEndToEnd {
  import opened Bytes
  import Keys = KeyExchangeSpec
  import Packets = PacketCrypto
  import Media = MediaChain
  import Signaling = SignalingEnvelope
  import Codec = SignalingCodec
  import Messages = SignalingMessages
  import RoundTrip = SignalingRoundTrip

  /** The media link of a call; the side that placed the call is the outgoing one. */
  function LinkOf(s: Keys.DhSession, peerTag: seq<byte>): Media.Link {
    Media.Link(s.sharedKey, !s.incoming, peerTag)
  }

  /**
    The caller's and the callee's sessions after a key exchange in which both public values
    were valid: each side's frames of 1 to 1093 bytes reach the other with sequence number,
    timestamp and payload intact.
  */
  lemma AudioArrives(env: Keys.Env, crypto: Packets.Crypto, caller: Keys.Engine, callee: Keys.Engine,
                     randomId: int, callId: int, g: int, p: seq<byte>, drawsA: Keys.Draws, drawsB: Keys.Draws,
                     peerTag: seq<byte>, sender: Media.Sender, opus: seq<byte>, random: nat -> byte, last: u32,
                     callerSends: bool)
    requires Keys.ValidConfig(g, p) && callId > 0
    requires Keys.ValidPublic(Keys.PublicOf(g, p, drawsA), p) && Keys.ValidPublic(Keys.PublicOf(g, p, drawsB), p)
    requires Packets.Inverse(crypto) && |peerTag| == 16 && 1 <= |opus| <= Media.MAX_SENDABLE
    ensures
      var x := Keys.ExchangeKeys(env, caller, callee, randomId, callId, g, p, drawsA, drawsB);
      && callId in x.caller.calls && callId in x.callee.calls
      && var a, b := LinkOf(x.caller.calls[callId], peerTag), LinkOf(x.callee.calls[callId], peerTag);
         var from, to := if callerSends then a else b, if callerSends then b else a;
         var sent := Media.Sent(crypto, from, sender, opus, random, true).1;
         && sent.Some?
         && Media.Received(crypto, to, last, sent.value)
            == (Media.UpdateLast(last, Media.Taken(sender.next)),
                Some(Media.Arrival(Media.Taken(sender.next), sender.timestamp, opus)))
  {
    hide Keys.ExchangeKeys, Keys.ValidPublic, Keys.PublicOf, Keys.KeyOf, Media.Sent, Media.Received, Packets.Inverse,
         Media.UpdateLast, Media.Taken, Keys.Fingerprint, Keys.ValidConfig;
    Keys.EnginesAgree(env, caller, callee, randomId, callId, g, p, drawsA, drawsB);
    var x := Keys.ExchangeKeys(env, caller, callee, randomId, callId, g, p, drawsA, drawsB);
    var from := LinkOf(if callerSends then x.caller.calls[callId] else x.callee.calls[callId], peerTag);
    Media.EndToEnd(crypto, from, sender, opus, random, last);
  }

  /** The caller is the initiator; every packet of structured signaling messages of at most 1 MiB each arrives completely. */
  lemma SignalingArrives(env: Keys.Env, crypto: Codec.Crypto, caller: Keys.Engine, callee: Keys.Engine,
                         randomId: int, callId: int, g: int, p: seq<byte>, drawsA: Keys.Draws, drawsB: Keys.Draws,
                         outgoingSeq: u32, messages: seq<Messages.Message>, callerSends: bool)
    requires Keys.ValidConfig(g, p) && callId > 0
    requires Keys.ValidPublic(Keys.PublicOf(g, p, drawsA), p) && Keys.ValidPublic(Keys.PublicOf(g, p, drawsB), p)
    requires forall i :: 0 <= i < |messages| ==>
               && RoundTrip.Structured(messages[i]) && Signaling.Sendable(messages[i])
               && |Messages.Serialize(messages[i])| <= 0x10_0000
    ensures
      var x := Keys.ExchangeKeys(env, caller, callee, randomId, callId, g, p, drawsA, drawsB);
      && callId in x.caller.calls && callId in x.callee.calls
      && var a, b := x.caller.calls[callId], x.callee.calls[callId];
         var from, to := if callerSends then a else b, if callerSends then b else a;
         Signaling.Opened(crypto, to.sharedKey, !callerSends,
                          Signaling.Sealed(crypto, from.sharedKey, callerSends, outgoingSeq, messages))
         == Signaling.ReceivedAll(messages)
  {
    hide Keys.ExchangeKeys, Keys.ValidPublic, Keys.PublicOf, Keys.KeyOf, Keys.Fingerprint, Keys.ValidConfig,
         Signaling.Opened, Signaling.Sealed, Signaling.ReceivedAll, Messages.Serialize, RoundTrip.Structured;
    Keys.EnginesAgree(env, caller, callee, randomId, callId, g, p, drawsA, drawsB);
    var x := Keys.ExchangeKeys(env, caller, callee, randomId, callId, g, p, drawsA, drawsB);
    var from := if callerSends then x.caller.calls[callId] else x.callee.calls[callId];
    Signaling.StructuredArrive(crypto, from.sharedKey, callerSends, outgoingSeq, messages);
  }
}
