/** The named colours of the app's colour table that the modelled screens
    pick between, and the two colour lookups that both doctor screens use:
    the colour of a tag chip and the background of an appointment card. The
    colour values themselves (hex strings) are not part of this model; all of
    them are non-empty strings and so truthy under `||`. */
module Palette {

  datatype Color =
    | Primary | Blue | Purple | Success | Pink | Error | Warning
    | BlueLight | PurpleLight | GreenLight

  /** The tags that have a colour of their own. */
  const KnownTags: seq<string> := ["Anxiety", "Pressure", "Stress", "Relationship Issues Chat"]

  /** `getTagColor(tag)`: `tagColors[tag] || Colors.primary`, where
      `tagColors` maps the four known tags to four distinct colours. Every
      other tag, the empty string included, gets the primary colour. */
  function TagColor(tag: string): (c: Color)
    ensures tag !in KnownTags <==> c == Primary
    ensures tag == "Anxiety" <==> c == Blue
    ensures tag == "Pressure" <==> c == Purple
    ensures tag == "Stress" <==> c == Success
    ensures tag == "Relationship Issues Chat" <==> c == Pink
  {
    if tag == "Anxiety" then Blue
    else if tag == "Pressure" then Purple
    else if tag == "Stress" then Success
    else if tag == "Relationship Issues Chat" then Pink
    else Primary
  }

  /** Distinct known tags are told apart by their colours. */
  lemma TagColorsDistinct(a: string, b: string)
    requires a in KnownTags && b in KnownTags && a != b
    ensures TagColor(a) != TagColor(b)
  {
  }

  const CardColors: seq<Color> := [BlueLight, PurpleLight, GreenLight]

  /** `getCardBackgroundColor(index)`: `colors[index % colors.length]` over
      three light colours; `index` is a position in the list shown, so it is
      never negative. */
  function CardBackground(index: nat): (c: Color)
    ensures c in CardColors
  {
    CardColors[index % |CardColors|]
  }

  /** The card colours repeat with period 3 ... */
  lemma {:induction false} CardBackgroundPeriodic(index: nat, k: nat)
    ensures CardBackground(index + 3 * k) == CardBackground(index)
    decreases k
  {
    if k > 0 {
      CardBackgroundPeriodic(index, k - 1);
      assert index + 3 * k == (index + 3 * (k - 1)) + 3;
    }
  }

  /** ... and neighbouring cards, and any two of three consecutive cards,
      have different backgrounds. */
  lemma CardBackgroundNeighbours(index: nat)
    ensures CardBackground(index) != CardBackground(index + 1)
    ensures CardBackground(index) != CardBackground(index + 2)
  {
  }
}
