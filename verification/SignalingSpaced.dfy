/** Signaling messages in the JSON text of other programs: spaced and spelled as they like. */
module SignalingSpaced {
  import opened Bytes
  import opened SeqFacts
  import opened JsonSpec
  import opened JsonSpaced
  import opened DecimalText
  import opened SignalingMessages
  import opened SignalingRoundTrip

  /**
    A message of a structured type is read from every text that spells its tree, with any white
    space around the tokens and any spelling of its strings, whatever follows the text.
  */
  lemma ParseSpaced(m: Message, t: Spaced, rest: string)
    requires Structured(m) && WellSpaced(t) && ValueOf(t.core) == Tree(m) && Behind(rest)
    ensures Parse(SpacedText(t) + rest) == Received(m, SpacedText(t) + rest)
  {
    hide SpacedText, ValueOf, Tree, Read, ParseValue;
    ParseText(t, rest);
    TreeIsObject(m);
    ReadTree(m, SpacedText(t) + rest);
  }

  lemma TreeIsObject(m: Message)
    requires Structured(m)
    ensures Tree(m).Object?
  {
  }

  /** In particular with the same white space around every token, for every message. */
  lemma ParseSpread(m: Message, w: string)
    requires Structured(m) && White(w)
    ensures WellSpaced(Spread(Tree(m), w))
    ensures Parse(SpacedText(Spread(Tree(m), w))) == Received(m, SpacedText(Spread(Tree(m), w)))
  {
    hide Spread, Tree, SpacedText, Parse;
    TreeIsIntegral(m);
    SpreadSpells(Tree(m), w);
    ParseSpaced(m, Spread(Tree(m), w), "");
    Unit(SpacedText(Spread(Tree(m), w)));
  }
}
