/**
 Binding a row of arguments to a template: by position when the query has positional parameters, by
 name when it has named ones.
 */
module RowBinding {
  import opened Wrappers
  import opened SqlScanner
  import opened QueryTemplate
  import opened TemplateRendering

  /** A bound value: its column, its literal, and the literal with its type. */
  datatype Argument = Argument(name: string, literal: string, typed: string)

  datatype BindError = PositionalByName | WrongCount | NamedByPosition | DuplicateName | MissingName | ExtraName

  function ArgumentText(a: Argument, bareInteger: bool): string {
    if bareInteger then a.literal else a.typed
  }

  // ----- What is bound to a slot -----

  /** The first argument of that name. */
  function Find(args: seq<Argument>, name: string): (j: nat)
    ensures j <= |args| && (j < |args| ==> args[j].name == name)
    ensures forall k :: 0 <= k < j ==> args[k].name != name
  {
    if args == [] || args[0].name == name then 0 else 1 + Find(args[1..], name)
  }

  /** What replaces slot `k`: the argument of its name, or the `k`-th one. */
  function SlotText(query: string, scanned: seq<ScannedSlot>, args: seq<Argument>, k: nat): string {
    if k < |scanned| then
      var j := if scanned[k].named then Find(args, NameOf(query, scanned[k])) else k;
      if j < |args| then ArgumentText(args[j], scanned[k].bareInteger) else ""
    else ""
  }

  function SlotTexts(query: string, scanned: seq<ScannedSlot>, args: seq<Argument>): Values {
    (k: nat) => SlotText(query, scanned, args, k)
  }

  // ----- Which rows are accepted -----

  predicate DistinctNames(args: seq<Argument>) {
    forall i, j :: 0 <= i < j < |args| ==> args[i].name != args[j].name
  }

  predicate Supplied(args: seq<Argument>, name: string) {
    exists j :: 0 <= j < |args| && args[j].name == name
  }

  predicate AllSupplied(args: seq<Argument>, names: seq<string>) {
    forall i :: 0 <= i < |names| ==> Supplied(args, names[i])
  }

  /** The first reason to refuse the row. */
  function BindFailure(layout: Layout, args: seq<Argument>, byName: bool): Option<BindError> {
    match layout
    case PositionalLayout(count) =>
      if byName then Some(PositionalByName) else if count != |args| then Some(WrongCount) else None
    case NamedLayout(names) =>
      if !byName then Some(NamedByPosition)
      else if !DistinctNames(args) then Some(DuplicateName)
      else if !AllSupplied(args, names) then Some(MissingName)
      else if |args| > |names| then Some(ExtraName)
      else None
  }

  function NameSet(args: seq<Argument>): set<string> {
    set j | 0 <= j < |args| :: args[j].name
  }

  lemma {:induction false} NameSetSize(args: seq<Argument>)
    requires DistinctNames(args)
    ensures |NameSet(args)| == |args|
  {
    if args != [] {
      var init, last := args[..|args| - 1], args[|args| - 1];
      NameSetSize(init);
      assert forall j :: 0 <= j < |init| ==> init[j] == args[j];
      assert NameSet(args) == NameSet(init) + {last.name};
    }
  }

  lemma {:induction false} DistinctSize(names: seq<string>)
    requires forall i, j :: 0 <= i < j < |names| ==> names[i] != names[j]
    ensures |set n | n in names| == |names|
  {
    if names != [] {
      var init, last := names[..|names| - 1], names[|names| - 1];
      DistinctSize(init);
      assert names == init + [last];
      assert (set n | n in names) == (set n | n in init) + {last};
    }
  }

  lemma {:induction false} SubsetSize(a: set<string>, b: set<string>)
    requires a <= b
    ensures |a| <= |b| && (|a| == |b| ==> a == b)
  {
    if a != {} {
      var x :| x in a;
      SubsetSize(a - {x}, b - {x});
    }
  }

  /** A row is accepted by name exactly when it has one argument for each parameter and no other. */
  lemma AcceptedByName(names: seq<string>, args: seq<Argument>)
    requires forall i, j :: 0 <= i < j < |names| ==> names[i] != names[j]
    ensures BindFailure(NamedLayout(names), args, true).None?
       <==> DistinctNames(args) && NameSet(args) == set n | n in names
  {
    var wanted := set n | n in names;
    DistinctSize(names);
    if DistinctNames(args) {
      NameSetSize(args);
      if AllSupplied(args, names) {
        forall n | n in wanted ensures n in NameSet(args) {
          var i :| 0 <= i < |names| && names[i] == n;
          assert Supplied(args, names[i]);
        }
        SubsetSize(wanted, NameSet(args));
      }
      if NameSet(args) == wanted {
        forall i | 0 <= i < |names| ensures Supplied(args, names[i]) {
          assert names[i] in NameSet(args);
        }
      }
    }
  }

  // ----- Rendering a row -----

  /** The arguments so far, by name. */
  ghost predicate Collected(args: seq<Argument>, byName: map<string, Argument>) {
    && DistinctNames(args) && |byName| == |args|
    && (forall j :: 0 <= j < |args| ==> args[j].name in byName && byName[args[j].name] == args[j])
    && (forall n :: n in byName ==> Supplied(args, n))
  }

  lemma CollectedMore(args: seq<Argument>, byName: map<string, Argument>, a: Argument)
    requires Collected(args, byName) && a.name !in byName
    ensures Collected(args + [a], byName[a.name := a])
  {
    var more := args + [a];
    forall n | n in byName[a.name := a] ensures Supplied(more, n) {
      if n == a.name {
        assert more[|args|].name == n;
      } else {
        var j :| 0 <= j < |args| && args[j].name == n;
        assert more[j].name == n;
      }
    }
  }

  /** A name that is already collected makes the arguments ambiguous. */
  lemma Ambiguous(args: seq<Argument>, i: nat, byName: map<string, Argument>)
    requires i < |args| && Collected(args[..i], byName) && args[i].name in byName
    ensures !DistinctNames(args)
  {
    var j :| 0 <= j < i && args[..i][j].name == args[i].name;
    assert args[j].name == args[i].name;
  }

  method CollectByName(args: seq<Argument>) returns (byName: Option<map<string, Argument>>)
    ensures byName.Some? <==> DistinctNames(args)
    ensures byName.Some? ==> Collected(args, byName.value)
  {
    var found: map<string, Argument> := map[];
    for i: nat := 0 to |args|
      invariant Collected(args[..i], found)
    {
      if args[i].name in found {
        Ambiguous(args, i, found);
        return None;
      }
      CollectedMore(args[..i], found, args[i]);
      assert args[..i + 1] == args[..i] + [args[i]];
      found := found[args[i].name := args[i]];
    }
    assert args[..|args|] == args;
    byName := Some(found);
  }

  method AnyMissing(names: seq<string>, byName: map<string, Argument>, ghost args: seq<Argument>) returns (missing: bool)
    requires Collected(args, byName)
    ensures missing <==> !AllSupplied(args, names)
  {
    for i: nat := 0 to |names|
      invariant forall k :: 0 <= k < i ==> Supplied(args, names[k])
    {
      if names[i] !in byName {
        assert !Supplied(args, names[i]);
        return true;
      }
    }
    missing := false;
  }

  function ByPosition(slot: TemplateSlot, args: seq<Argument>): Option<string> {
    if slot.parameter.Positional? && slot.parameter.index < |args|
    then Some(ArgumentText(args[slot.parameter.index], slot.bareInteger)) else None
  }

  function ByName(slot: TemplateSlot, names: seq<string>, found: map<string, Argument>): Option<string> {
    if slot.parameter.Named? && slot.parameter.name < |names| && names[slot.parameter.name] in found
    then Some(ArgumentText(found[names[slot.parameter.name]], slot.bareInteger)) else None
  }

  /** By name or by number, a slot gets the argument that was meant for it. */
  lemma NamedSlotText(query: string, scanned: seq<ScannedSlot>, t: Template, args: seq<Argument>,
                      found: map<string, Argument>, k: nat)
    requires t.layout.NamedLayout? && Binds(query, scanned, t) && k < |t.slots|
    requires Collected(args, found) && AllSupplied(args, t.layout.names)
    ensures ByName(t.slots[k], t.layout.names, found) == Some(SlotText(query, scanned, args, k))
  {
    var name := NameOf(query, scanned[k]);
    assert Supplied(args, t.layout.names[t.slots[k].parameter.name]);
    var j := Find(args, name);
    assert found[args[j].name] == args[j];
  }

  /** Refuses the row for the first reason there is; otherwise every slot gets its argument. */
  method RenderRow(t: Template, args: seq<Argument>, byName: bool, ghost scanned: seq<ScannedSlot>)
    returns (r: Result<string, BindError>)
    requires Ordered(scanned, 0, |t.query|) && Tiles(t.query, scanned, t.segments) && Binds(t.query, scanned, t)
    ensures var failure := BindFailure(t.layout, args, byName);
            r == if failure.Some? then Err(failure.value)
                 else Ok(Stitch(t.query, 0, scanned, SlotTexts(t.query, scanned, args), 0))
  {
    match t.layout {
      case PositionalLayout(count) =>
        if byName {
          return Err(PositionalByName);
        }
        if count != |args| {
          return Err(WrongCount);
        }
        var text := Render(t, slot => ByPosition(slot, args), scanned, SlotTexts(t.query, scanned, args));
        return Ok(text.value);
      case NamedLayout(names) =>
        if !byName {
          return Err(NamedByPosition);
        }
        r := RenderNamed(t, args, scanned);
    }
  }

  method RenderNamed(t: Template, args: seq<Argument>, ghost scanned: seq<ScannedSlot>) returns (r: Result<string, BindError>)
    requires Ordered(scanned, 0, |t.query|) && Tiles(t.query, scanned, t.segments) && Binds(t.query, scanned, t)
    requires t.layout.NamedLayout?
    ensures var failure := BindFailure(t.layout, args, true);
            r == if failure.Some? then Err(failure.value)
                 else Ok(Stitch(t.query, 0, scanned, SlotTexts(t.query, scanned, args), 0))
  {
    var names := t.layout.names;
    var collected := CollectByName(args);
    if collected.None? {
      return Err(DuplicateName);
    }
    var found := collected.value;
    var missing := AnyMissing(names, found, args);
    if missing {
      return Err(MissingName);
    }
    if |found| > |names| {
      return Err(ExtraName);
    }
    forall k | 0 <= k < |t.slots| ensures ByName(t.slots[k], names, found) == Some(SlotText(t.query, scanned, args, k)) {
      NamedSlotText(t.query, scanned, t, args, found, k);
    }
    var text := Render(t, slot => ByName(slot, names, found), scanned, SlotTexts(t.query, scanned, args));
    r := Ok(text.value);
  }
}
