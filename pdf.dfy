/**
 * The PDF library as the exporters see it: a sink that records what is drawn
 * where, in order. Text wrapping and image decoding are the library's own
 * business, so the exporters receive them as given functions.
 */
module Pdf {

  /** What a drawn item is for. */
  datatype Kind = Title | Heading | Label | Body | Picture | Placeholder

  /** One call on the document: text or an image at (x, y), or `addPage()`. */
  datatype Event = Draw(kind: Kind, text: string, x: int, y: int) | NewPage

  /** `splitTextToSize(text, width).length` and whether `addImage(data, ...)` succeeds
      (`false`: the call throws). */
  datatype Writer = Writer(lineCount: (string, nat) -> nat, drawsImage: string -> bool)

  /** Drawn items and the cursor after them. */
  datatype Laid = Laid(events: seq<Event>, y: int)

  predicate IsHeading(e: Event) {
    e.Draw? && e.kind == Heading
  }

  /** The step headings among the drawn items, in drawing order. */
  function Headings(events: seq<Event>): (r: seq<Event>)
    ensures |r| <= |events|
    ensures forall k :: 0 <= k < |r| ==> IsHeading(r[k])
  {
    if events == [] then []
    else (if IsHeading(events[0]) then [events[0]] else []) + Headings(events[1..])
  }

  lemma {:induction false} HeadingsAppend(a: seq<Event>, b: seq<Event>)
    ensures Headings(a + b) == Headings(a) + Headings(b)
    decreases |a|
  {
    if a == [] {
      assert a + b == b;
    } else {
      var first := if IsHeading(a[0]) then [a[0]] else [];
      assert (a + b)[0] == a[0];
      assert (a + b)[1..] == a[1..] + b;
      HeadingsAppend(a[1..], b);
      assert Headings(a + b) == first + Headings(a[1..] + b);
      assert Headings(a) == first + Headings(a[1..]);
    }
  }

  lemma {:induction false} HeadingsNone(a: seq<Event>)
    requires forall k :: 0 <= k < |a| ==> !IsHeading(a[k])
    ensures Headings(a) == []
    decreases |a|
  {
    if a != [] {
      HeadingsNone(a[1..]);
    }
  }
}
