/**
 Rendering a template.  Rendering every slot as its own text gives the query back; rendering slots as
 raw-quoted strings gives text with the same statements and no slots.
 */
module TemplateRendering {
  import opened Wrappers
  import opened Sequences
  import opened SqlLexer
  import opened SqlScanner
  import opened QueryTemplate

  /** A text for each slot, by number. */
  type Values = nat -> string

  // ----- Rendering by segments -----

  /** The text from `from` on, with the slots replaced. */
  function Stitch(query: string, from: nat, slots: seq<ScannedSlot>, values: Values, k: nat): string
    requires Ordered(slots, from, |query|)
    decreases |slots|
  {
    OrderedEnd(slots, from, |query|);
    if slots == [] then query[from..]
    else
      OrderedEnd(slots[1..], slots[0].end, |query|);
      query[from..slots[0].start] + (values(k) + Stitch(query, slots[0].end, slots[1..], values, k + 1))
  }

  /** What is written and what is still to be stitched make up the whole. */
  ghost predicate Stitching(query: string, scanned: seq<ScannedSlot>, values: Values, i: nat, from: nat, output: string)
    requires Ordered(scanned, 0, |query|)
  {
    && i <= |scanned| && Ordered(scanned[i..], from, |query|)
    && output + Stitch(query, from, scanned[i..], values, i) == Stitch(query, 0, scanned, values, 0)
  }

  lemma StitchingStarts(query: string, scanned: seq<ScannedSlot>, values: Values)
    requires Ordered(scanned, 0, |query|)
    ensures Stitching(query, scanned, values, 0, 0, "")
  {
    Whole(scanned);
    Whole(Stitch(query, 0, scanned, values, 0));
  }

  lemma StitchingStep(query: string, scanned: seq<ScannedSlot>, values: Values, i: nat, from: nat, output: string)
    requires Ordered(scanned, 0, |query|) && i < |scanned| && Stitching(query, scanned, values, i, from, output)
    ensures from <= scanned[i].start < scanned[i].end <= |query|
    ensures Stitching(query, scanned, values, i + 1, scanned[i].end, output + query[from..scanned[i].start] + values(i))
  {
    var rest := scanned[i..];
    assert rest[0] == scanned[i] && rest[1..] == scanned[i + 1..];
    OrderedAt(rest, from, |query|, 0);
    var segment, tail := query[from..scanned[i].start], Stitch(query, scanned[i].end, scanned[i + 1..], values, i + 1);
    Assoc(output, segment, values(i) + tail);
    Assoc(output + segment, values(i), tail);
  }

  lemma StitchingEnds(query: string, scanned: seq<ScannedSlot>, values: Values, from: nat, output: string)
    requires Ordered(scanned, 0, |query|) && Stitching(query, scanned, values, |scanned|, from, output)
    ensures from <= |query| && output + query[from..] == Stitch(query, 0, scanned, values, 0)
  {
  }

  /** Segments and slot texts in turn, then the last segment; fails at the first slot that does not resolve. */
  method Render(t: Template, resolve: TemplateSlot -> Option<string>, ghost scanned: seq<ScannedSlot>, ghost values: Values)
    returns (r: Option<string>)
    requires Ordered(scanned, 0, |t.query|) && Tiles(t.query, scanned, t.segments) && |t.slots| == |scanned|
    requires forall i :: 0 <= i < |t.slots| && resolve(t.slots[i]).Some? ==> values(i) == resolve(t.slots[i]).value
    ensures r.Some? <==> forall i :: 0 <= i < |t.slots| ==> resolve(t.slots[i]).Some?
    ensures r.Some? ==> r.value == Stitch(t.query, 0, scanned, values, 0)
  {
    var output := "";
    StitchingStarts(t.query, scanned, values);
    for i: nat := 0 to |t.slots|
      invariant Stitching(t.query, scanned, values, i, t.segments[i].start, output)
      invariant forall j :: 0 <= j < i ==> resolve(t.slots[j]).Some?
    {
      var text := resolve(t.slots[i]);
      if text.None? {
        return None;
      }
      StitchingStep(t.query, scanned, values, i, t.segments[i].start, output);
      output := output + t.query[t.segments[i].start..t.segments[i].end] + text.value;
    }
    var last := t.segments[|t.slots|];
    StitchingEnds(t.query, scanned, values, last.start, output);
    r := Some(output + t.query[last.start..last.end]);
  }

  // ----- Rendering by tokens -----

  function Rendered(tokens: seq<Token>, values: Values, k: nat): string {
    if tokens == [] then ""
    else if tokens[0].kind.Slot? then values(k) + Rendered(tokens[1..], values, k + 1)
    else tokens[0].text + Rendered(tokens[1..], values, k)
  }

  /** The slots are at the places of the slot tokens. */
  ghost predicate Placed(slots: seq<ScannedSlot>, tokens: seq<Token>, pos: nat)
    decreases |tokens|
  {
    if tokens == [] then slots == []
    else
      var end := pos + |tokens[0].text|;
      if tokens[0].kind.Slot? then
        slots != [] && slots[0].start == pos && slots[0].end == end && Placed(slots[1..], tokens[1..], end)
      else Placed(slots, tokens[1..], end)
  }

  lemma {:induction false} SlotsPlaced(tokens: seq<Token>, pos: nat, c: Core)
    ensures Placed(Slots(tokens, pos, c), tokens, pos)
    decreases |tokens|
  {
    if tokens != [] {
      var t, end := tokens[0], pos + |tokens[0].text|;
      var rest := Slots(tokens[1..], end, Apply(c, t));
      SlotsPlaced(tokens[1..], end, Apply(c, t));
      if t.kind.Slot? {
        After([ScannedSlot(pos, end, t.kind.named, c.bare)], rest);
      } else {
        Whole(rest);
      }
    }
  }

  lemma StitchSlot(query: string, from: nat, slots: seq<ScannedSlot>, values: Values, k: nat, tail: string)
    requires slots != [] && Ordered(slots, from, |query|) && slots[0].end <= |query|
    requires Stitch(query, slots[0].end, slots[1..], values, k + 1) == query[slots[0].end..slots[0].end] + tail
    ensures Stitch(query, from, slots, values, k) == query[from..slots[0].start] + (values(k) + tail)
  {
    assert query[slots[0].end..slots[0].end] + tail == tail;
  }

  lemma {:induction false} StitchIsRendered(query: string, from: nat, pos: nat, tokens: seq<Token>, slots: seq<ScannedSlot>,
                                            values: Values, k: nat)
    requires from <= pos <= |query| && query[pos..] == Text(tokens)
    requires Placed(slots, tokens, pos) && Ordered(slots, from, |query|)
    ensures Stitch(query, from, slots, values, k) == query[from..pos] + Rendered(tokens, values, k)
    decreases |tokens|
  {
    if tokens == [] {
      Whole(query[from..pos]);
    } else {
      var t, end := tokens[0], pos + |tokens[0].text|;
      TextSplit(query, from, pos, t.text, Text(tokens[1..]));
      if t.kind.Slot? {
        StitchIsRendered(query, end, end, tokens[1..], slots[1..], values, k + 1);
        StitchSlot(query, from, slots, values, k, Rendered(tokens[1..], values, k + 1));
      } else {
        StitchIsRendered(query, from, end, tokens[1..], slots, values, k);
        Assoc(query[from..pos], t.text, Rendered(tokens[1..], values, k));
      }
    }
  }

  lemma SlotsRendered(query: string, tokens: seq<Token>, values: Values)
    requires query == Text(tokens) && forall i :: 0 <= i < |tokens| ==> tokens[i].text != ""
    ensures Ordered(Slots(tokens, 0, START), 0, |query|)
    ensures Stitch(query, 0, Slots(tokens, 0, START), values, 0) == Rendered(tokens, values, 0)
  {
    var slots := Slots(tokens, 0, START);
    SlotsOrdered(tokens, 0, START);
    SlotsPlaced(tokens, 0, START);
    Whole(query);
    StitchIsRendered(query, 0, 0, tokens, slots, values, 0);
    assert query[0..0] + Rendered(tokens, values, 0) == Rendered(tokens, values, 0);
  }

  lemma TextSplit(query: string, from: nat, pos: nat, text: string, rest: string)
    requires from <= pos <= |query| && query[pos..] == text + rest
    ensures pos + |text| <= |query| && query[pos + |text|..] == rest
    ensures query[from..pos + |text|] == query[from..pos] + text
  {
    After(text, rest);
    assert query[pos..][|text|..] == query[pos + |text|..];
    assert query[pos..][..|text|] == query[pos..pos + |text|];
  }

  // ----- Rendering slots as themselves -----

  lemma {:induction false} StitchIdentity(query: string, from: nat, slots: seq<ScannedSlot>, values: Values, k: nat)
    requires Ordered(slots, from, |query|)
    requires forall i :: 0 <= i < |slots| ==> values(k + i) == TextOf(query, slots[i])
    ensures from <= |query| && Stitch(query, from, slots, values, k) == query[from..]
    decreases |slots|
  {
    OrderedEnd(slots, from, |query|);
    if slots != [] {
      var first, rest := slots[0], slots[1..];
      forall i | 0 <= i < |rest| ensures values(k + 1 + i) == TextOf(query, rest[i]) {
        assert rest[i] == slots[i + 1] && k + 1 + i == k + (i + 1);
      }
      StitchIdentity(query, first.end, rest, values, k + 1);
      assert values(k + 0) == TextOf(query, slots[0]);
      OrderedEnd(rest, first.end, |query|);
      ThreeParts(query, from, first.start, first.end);
    }
  }

  /** Segments and slots tile the query: rendering each slot as its own text gives the query back. */
  lemma SlotsTileQuery(query: string, tokens: seq<Token>, slots: seq<ScannedSlot>, values: Values, step: Stepper)
    requires Proper(step) && Tokens(step, false, query, Normal) == Lexed(tokens)
    requires slots == Slots(tokens, 0, START) && OwnTexts(query, slots, values)
    ensures Ordered(slots, 0, |query|) && Stitch(query, 0, slots, values, 0) == query
  {
    TokensTile(step, false, query, Normal);
    SlotsOrdered(tokens, 0, START);
    StitchIdentity(query, 0, slots, values, 0);
    Whole(query);
  }

  /** Each value is the text of its slot. */
  ghost predicate OwnTexts(query: string, slots: seq<ScannedSlot>, values: Values) {
    forall i :: 0 <= i < |slots| ==> values(0 + i) == TextOf(query, slots[i])
  }

  function TextOf(query: string, slot: ScannedSlot): string {
    if slot.start <= slot.end <= |query| then query[slot.start..slot.end] else ""
  }
}
