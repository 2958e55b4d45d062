/** The loops of the message reader and writer: escaping, and the list of candidates. */
module SignalingWriter {
  import opened Bytes
  import opened SeqFacts
  import opened JsonSpec
  import opened SignalingMessages
  import Text = JsonSpec
  import Spec = SignalingMessages

  method EscapeJson(s: string) returns (out: string)
    ensures out == Text.EscapeJson(s)
  {
    hide EscapeChar;
    out := "";
    for i := 0 to |s|
      invariant out == Text.EscapeJson(s[..i])
    {
      Snoc(s[..i], s[i]);
      assert s[..i + 1] == s[..i] + [s[i]];
      out := out + EscapeChar(s[i]);
    }
    assert s[..|s|] == s;
  }

  /** Items that are not objects, or have no text, are skipped. */
  method ParseCandidates(obj: Json) returns (out: Option<seq<string>>)
    ensures out == Spec.ParseCandidates(obj)
  {
    var arr := obj.Find("candidates");
    if arr.None? || !arr.value.Array? {
      return None;
    }
    var items := arr.value.items;
    var candidates: seq<string> := [];
    for i := 0 to |items|
      invariant candidates == SdpStrings(items[..i])
    {
      Snoc(items[..i], items[i]);
      assert items[..i + 1] == items[..i] + [items[i]];
      var sdp := items[i].Find("sdpString");
      Unit(candidates);
      if sdp.Some? && sdp.value.String? {
        candidates := candidates + [sdp.value.s];
      }
    }
    assert items[..|items|] == items;
    out := Some(candidates);
  }

  /** One object per candidate, with commas between them. */
  method SerializeCandidateList(sdp: seq<string>) returns (out: string)
    ensures out == CommaJoin(SerializedCandidates(sdp))
  {
    hide SerializeCandidate;
    out := "";
    var i := 0;
    while i < |sdp|
      invariant 0 <= i <= |sdp|
      invariant out == CommaJoin(SerializedCandidates(sdp)[..i])
    {
      ghost var parts := SerializedCandidates(sdp);
      assert parts[..i + 1] == parts[..i] + [parts[i]];
      JoinSnoc(parts[..i], parts[i]);
      if i > 0 {
        out := out + ",";
      }
      out := out + SerializeCandidate(sdp[i]);
      i := i + 1;
    }
    assert SerializedCandidates(sdp)[..i] == SerializedCandidates(sdp);
  }

  lemma {:induction false} JoinSnoc(parts: seq<string>, last: string)
    ensures CommaJoin(parts + [last]) == if parts == [] then last else CommaJoin(parts) + "," + last
  {
    if |parts| == 1 {
      assert (parts + [last])[1..] == [last];
    } else if |parts| > 1 {
      assert (parts + [last])[1..] == parts[1..] + [last];
      JoinSnoc(parts[1..], last);
      Assoc(parts[0] + ",", CommaJoin(parts[1..]) + ",", last);
      Assoc(parts[0] + ",", CommaJoin(parts[1..]), ",");
    }
  }
}
