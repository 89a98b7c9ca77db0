/**
 Query templates: the text between parameter slots and the slots themselves, compiled from a scan and
 rendered with a value for each slot.
 */
module QueryTemplate {
  import opened Wrappers
  import opened Sequences
  import opened SqlLexer
  import opened SqlScanner

  datatype ParameterSlot = Positional(index: nat) | Named(name: nat)

  datatype TemplateSlot = TemplateSlot(parameter: ParameterSlot, bareInteger: bool)

  datatype Layout = PositionalLayout(count: nat) | NamedLayout(names: seq<string>)

  datatype Template = Template(query: string, segments: seq<Span>, slots: seq<TemplateSlot>, layout: Layout)

  datatype CompileError = Lexical(error: LexError) | MultipleStatements | MixedParameters

  // ----- Slots lie in the text, in order -----

  ghost predicate Ordered(slots: seq<ScannedSlot>, from: nat, limit: nat) {
    if slots == [] then from <= limit
    else from <= slots[0].start < slots[0].end && Ordered(slots[1..], slots[0].end, limit)
  }

  lemma {:induction false} OrderedFrom(slots: seq<ScannedSlot>, from: nat, later: nat, limit: nat)
    requires Ordered(slots, later, limit) && from <= later
    ensures Ordered(slots, from, limit)
  {
  }

  lemma {:induction false} SlotsOrdered(tokens: seq<Token>, pos: nat, c: Core)
    requires forall i :: 0 <= i < |tokens| ==> tokens[i].text != ""
    ensures Ordered(Slots(tokens, pos, c), pos, pos + |Text(tokens)|)
  {
    if tokens != [] {
      var t, end := tokens[0], pos + |tokens[0].text|;
      SlotsOrdered(tokens[1..], end, Apply(c, t));
      var rest := Slots(tokens[1..], end, Apply(c, t));
      if t.kind.Slot? {
        assert Slots(tokens, pos, c)[1..] == rest;
      } else {
        assert Slots(tokens, pos, c) == rest;
        OrderedFrom(rest, pos, end, pos + |Text(tokens)|);
      }
    }
  }

  lemma {:induction false} OrderedAt(slots: seq<ScannedSlot>, from: nat, limit: nat, i: nat)
    requires Ordered(slots, from, limit) && i < |slots|
    ensures from <= slots[i].start < slots[i].end <= limit
    ensures i > 0 ==> slots[i - 1].end <= slots[i].start
  {
    if i > 0 {
      OrderedAt(slots[1..], slots[0].end, limit, i - 1);
    }
    OrderedEnd(slots[1..], slots[0].end, limit);
  }

  lemma {:induction false} OrderedEnd(slots: seq<ScannedSlot>, from: nat, limit: nat)
    requires Ordered(slots, from, limit)
    ensures from <= limit
  {
    if slots != [] {
      OrderedEnd(slots[1..], slots[0].end, limit);
    }
  }

  // ----- Compiling -----

  /** The segments are the text between the slots. */
  ghost predicate Tiles(query: string, scanned: seq<ScannedSlot>, segments: seq<Span>) {
    && |segments| == |scanned| + 1
    && forall i :: 0 <= i < |segments| ==> segments[i] == Between(query, scanned, i)
  }

  /** The text between slots `i - 1` and `i`. */
  function Between(query: string, scanned: seq<ScannedSlot>, i: nat): Span
    requires i <= |scanned|
  {
    Span(if i == 0 then 0 else scanned[i - 1].end, if i == |scanned| then |query| else scanned[i].start)
  }

  predicate AllPositional(scanned: seq<ScannedSlot>) {
    forall i :: 0 <= i < |scanned| ==> !scanned[i].named
  }

  predicate AllNamed(scanned: seq<ScannedSlot>) {
    forall i :: 0 <= i < |scanned| ==> scanned[i].named
  }

  function NameOf(query: string, slot: ScannedSlot): string {
    if slot.start + 1 <= slot.end <= |query| then query[slot.start + 1..slot.end] else ""
  }

  /** Slot `i` is the `i`-th value. */
  ghost predicate BindsPositions(scanned: seq<ScannedSlot>, slots: seq<TemplateSlot>) {
    && |slots| == |scanned|
    && forall i :: 0 <= i < |slots| ==> slots[i] == TemplateSlot(Positional(i), scanned[i].bareInteger)
  }

  /** The names of the slots, each at its first use. */
  function Names(query: string, scanned: seq<ScannedSlot>): seq<string> {
    if scanned == [] then []
    else
      var earlier, name := Names(query, scanned[..|scanned| - 1]), NameOf(query, scanned[|scanned| - 1]);
      if name in earlier then earlier else earlier + [name]
  }

  lemma NamesMore(query: string, scanned: seq<ScannedSlot>, i: nat)
    requires i < |scanned|
    ensures var earlier, name := Names(query, scanned[..i]), NameOf(query, scanned[i]);
            Names(query, scanned[..i + 1]) == if name in earlier then earlier else earlier + [name]
  {
    assert scanned[..i + 1][..i] == scanned[..i];
  }

  /** The slot has the number of the scanned slot's name. */
  predicate BindsName(query: string, scanned: ScannedSlot, slot: TemplateSlot, names: seq<string>) {
    && slot.parameter.Named? && slot.parameter.name < |names| && slot.bareInteger == scanned.bareInteger
    && names[slot.parameter.name] == NameOf(query, scanned)
  }

  ghost predicate AllBound(query: string, scanned: seq<ScannedSlot>, slots: seq<TemplateSlot>, names: seq<string>) {
    |slots| <= |scanned| && forall i :: 0 <= i < |slots| ==> BindsName(query, scanned[i], slots[i], names)
  }

  lemma AllBoundPush(query: string, scanned: seq<ScannedSlot>, slots: seq<TemplateSlot>, names: seq<string>,
                     more: seq<string>, slot: TemplateSlot)
    requires AllBound(query, scanned, slots, names) && names <= more
    requires |slots| < |scanned| && BindsName(query, scanned[|slots|], slot, more)
    ensures AllBound(query, scanned, slots + [slot], more)
  {
    forall i | 0 <= i < |slots| ensures BindsName(query, scanned[i], slots[i], more) {
      assert BindsName(query, scanned[i], slots[i], names);
    }
  }

  /** Slots with the same name are the same value. */
  ghost predicate BindsNames(query: string, scanned: seq<ScannedSlot>, slots: seq<TemplateSlot>, names: seq<string>) {
    && |slots| == |scanned| && names == Names(query, scanned)
    && AllBound(query, scanned, slots, names)
    && (forall i, j :: 0 <= i < j < |names| ==> names[i] != names[j])
  }

  ghost predicate Binds(query: string, scanned: seq<ScannedSlot>, t: Template) {
    match t.layout
    case PositionalLayout(count) => count == |scanned| && AllPositional(scanned) && BindsPositions(scanned, t.slots)
    case NamedLayout(names) => names != [] && AllNamed(scanned) && BindsNames(query, scanned, t.slots, names)
  }

  /** What a query compiles to. */
  ghost predicate IsTemplate(query: string, scanned: seq<ScannedSlot>, t: Template) {
    t.query == query && Tiles(query, scanned, t.segments) && Binds(query, scanned, t)
  }

  /** Why the query has no template, if it has none. */
  ghost function CompileFailure(l: Lexed): Option<CompileError> {
    if l.LexFailed? then Some(Lexical(l.error))
    else
      var scanned := Slots(l.tokens, 0, START);
      if Finish(Fold(l.tokens, START)).statements > 1 then Some(MultipleStatements)
      else if !AllNamed(scanned) && !AllPositional(scanned) then Some(MixedParameters)
      else None
  }

  ghost function LayoutOf(query: string, scanned: seq<ScannedSlot>): Layout {
    if scanned != [] && scanned[0].named then NamedLayout(Names(query, scanned)) else PositionalLayout(|scanned|)
  }

  lemma LayoutIsOf(query: string, scanned: seq<ScannedSlot>, t: Template)
    requires IsTemplate(query, scanned, t)
    ensures t.layout == LayoutOf(query, scanned)
  {
  }

  method Segments(query: string, scanned: seq<ScannedSlot>) returns (segments: seq<Span>)
    ensures Tiles(query, scanned, segments)
  {
    var start: nat := 0;
    segments := [];
    for i: nat := 0 to |scanned|
      invariant |segments| == i && start == if i == 0 then 0 else scanned[i - 1].end
      invariant forall k :: 0 <= k < i ==> segments[k] == Between(query, scanned, k)
    {
      segments := segments + [Span(start, scanned[i].start)];
      start := scanned[i].end;
    }
    segments := segments + [Span(start, |query|)];
  }

  /** The number of a name, given it when first met. */
  method NumberName(name: string, names: seq<string>, indices: map<string, nat>)
    returns (index: nat, names': seq<string>, indices': map<string, nat>)
    requires Numbered(names, indices)
    ensures Numbered(names', indices') && index < |names'| && names'[index] == name
    ensures names' == if name in names then names else names + [name]
  {
    if name in indices {
      return indices[name], names, indices;
    }
    index, names', indices' := |names|, names + [name], indices[name := |names|];
  }

  ghost predicate Numbered(names: seq<string>, indices: map<string, nat>) {
    && (forall i :: 0 <= i < |names| ==> names[i] in indices && indices[names[i]] == i)
    && (forall n :: n in indices ==> indices[n] < |names| && names[indices[n]] == n)
  }

  method BindNames(query: string, scanned: seq<ScannedSlot>) returns (slots: seq<TemplateSlot>, names: seq<string>)
    requires AllNamed(scanned) && scanned != []
    ensures names != [] && BindsNames(query, scanned, slots, names)
  {
    slots, names := [], [];
    var indices: map<string, nat> := map[];
    for i: nat := 0 to |scanned|
      invariant |slots| == i && Numbered(names, indices) && (i > 0 ==> names != []) && names == Names(query, scanned[..i])
      invariant AllBound(query, scanned, slots, names)
    {
      var index;
      NamesMore(query, scanned, i);
      ghost var earlier := names;
      index, names, indices := NumberName(NameOf(query, scanned[i]), names, indices);
      var slot := TemplateSlot(Named(index), scanned[i].bareInteger);
      AllBoundPush(query, scanned, slots, earlier, names, slot);
      slots := slots + [slot];
    }
    Whole(scanned);
  }

  method BindPositions(scanned: seq<ScannedSlot>) returns (slots: seq<TemplateSlot>)
    ensures BindsPositions(scanned, slots)
  {
    slots := [];
    for i: nat := 0 to |scanned|
      invariant |slots| == i
      invariant forall k :: 0 <= k < i ==> slots[k] == TemplateSlot(Positional(k), scanned[k].bareInteger)
    {
      slots := slots + [TemplateSlot(Positional(i), scanned[i].bareInteger)];
    }
  }

  /** Whether all slots are of the kind of the first one. */
  method Uniform(scanned: seq<ScannedSlot>) returns (named: bool, uniform: bool)
    ensures named <==> scanned != [] && scanned[0].named
    ensures uniform <==> AllNamed(scanned) || AllPositional(scanned)
  {
    named := scanned != [] && scanned[0].named;
    for i: nat := 0 to |scanned|
      invariant forall k :: 0 <= k < i ==> scanned[k].named == named
    {
      if scanned[i].named != named {
        return named, false;
      }
    }
    uniform := true;
  }

  /** A template of at most one statement whose slots are all positional or all named. */
  method CompileQuery(query: string, step: Stepper) returns (r: Result<Template, CompileError>)
    requires Proper(step)
    ensures var l := Tokens(step, false, query, Normal);
            var failure := CompileFailure(l);
            if failure.Some? then r == Err(failure.value)
            else r.Ok? && IsTemplate(query, Slots(l.tokens, 0, START), r.value)
  {
    var scan := ScanQuery(query, step);
    if scan.Err? {
      return Err(Lexical(scan.error));
    }
    var scanned := scan.value.slots;
    if |scan.value.statements| > 1 {
      return Err(MultipleStatements);
    }
    var named, uniform := Uniform(scanned);
    if !uniform {
      return Err(MixedParameters);
    }
    var segments := Segments(query, scanned);
    if named {
      var slots, names := BindNames(query, scanned);
      return Ok(Template(query, segments, slots, NamedLayout(names)));
    }
    var slots := BindPositions(scanned);
    r := Ok(Template(query, segments, slots, PositionalLayout(|slots|)));
  }
}
