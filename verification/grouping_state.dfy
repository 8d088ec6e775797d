/** The grouping of a query as it is built: a table of keys and aggregates that extraction and
    resolution grow in place, and the slots remembered for the aggregates handed over. */
module GroupingState {
  import opened Options
  import opened SqlTypes
  import opened Bound
  import opened Syntax
  import opened Grouping

  /** The slots of the aggregates nested queries handed over, filled as each is first met. */
  class HandedSlots {
    const handed: seq<Option<(AggCall, TypeInfo)>>
    var slots: seq<Option<nat>>

    constructor (handed: seq<Option<(AggCall, TypeInfo)>>)
      ensures this.handed == handed && slots == seq(|handed|, _ => None)
    {
      this.handed := handed;
      slots := seq(|handed|, _ => None);
    }

    function Content(): Resolution
      reads this
    {
      Resolution(handed, slots)
    }
  }

  class GroupingTable {
    var keys: seq<Expr>
    var aggregates: seq<AggCall>
    var aggregateTypes: seq<TypeInfo>

    constructor (keys: seq<Expr>)
      ensures Content() == Grouping(keys, [], [])
    {
      this.keys := keys;
      aggregates, aggregateTypes := [], [];
    }

    function Content(): Grouping
      reads this
    {
      Grouping(keys, aggregates, aggregateTypes)
    }

    /** `key_index`. */
    method FindKey(e: Expr) returns (index: Option<nat>)
      ensures index == KeyIndex(keys, e)
    {
      var i := 0;
      while i < |keys|
        invariant i <= |keys|
        invariant forall j :: 0 <= j < i ==> !SameExpression(keys[j], e)
      {
        if SameExpression(keys[i], e) {
          KeyIndexIs(keys, e, i);
          return Some(i);
        }
        i := i + 1;
      }
      return None;
    }

    /** `aggregate_index`: the position of the call, appended when no entry is the same. Entries
        and the positions issued before are left as they are. */
    method AggregateIndex(call: AggCall, ty: TypeInfo) returns (index: nat)
      modifies this`aggregates, this`aggregateTypes
      ensures Content() == WithCall(old(Content()), call, ty)
      ensures index == CallIndex(old(aggregates), call) && index < |aggregates|
    {
      index := 0;
      while index < |aggregates|
        invariant index <= |aggregates|
        invariant forall j :: 0 <= j < index ==> !SameCall(aggregates[j], call)
      {
        if SameCall(aggregates[index], call) {
          CallIndexIs(aggregates, call, index);
          return;
        }
        index := index + 1;
      }
      CallIndexIs(aggregates, call, index);
      aggregates := aggregates + [call];
      aggregateTypes := aggregateTypes + [ty];
    }

    /** `resolve_column`: the column of the `Aggregate` a reference on this query stands for. An
        aggregate handed over is extracted the first time it is met and remembered. */
    method ResolveReference(c: ColumnBinding, resolution: HandedSlots) returns (slot: Option<nat>)
      modifies this`aggregates, this`aggregateTypes, resolution`slots
      ensures slot.Some? <==> ResolveColumn(c, old(Content()), old(resolution.Content())).Ok?
      ensures slot.Some? ==>
        ResolveColumn(c, old(Content()), old(resolution.Content())) == Ok(slot.value, Content(), resolution.Content())
      ensures slot.None? ==> Content() == old(Content()) && resolution.Content() == old(resolution.Content())
    {
      if c.column.Handed? {
        if c.index < |resolution.slots| && resolution.slots[c.index].Some? { return resolution.slots[c.index]; }
        if c.index >= |resolution.handed| || resolution.handed[c.index].None? { return None; }
        var (call, ty) := resolution.handed[c.index].value;
        var index := AggregateIndex(call, ty);
        slot := Some(|keys| + index);
        if c.index < |resolution.slots| { resolution.slots := resolution.slots[c.index := slot]; }
      } else if c.column.Slot? {
        slot := Some(c.index);
      } else {
        slot := FindKey(ColumnRef(c.(depth := 0), c.ty));
      }
    }
  }

  lemma {:induction false} KeyIndexIs(keys: seq<Expr>, e: Expr, i: nat)
    requires i < |keys| && SameExpression(keys[i], e) && forall j :: 0 <= j < i ==> !SameExpression(keys[j], e)
    ensures KeyIndex(keys, e) == Some(i)
    decreases |keys|
  {
    if i > 0 { KeyIndexIs(keys[1..], e, i - 1); }
  }

  lemma {:induction false} CallIndexIs(calls: seq<AggCall>, call: AggCall, i: nat)
    requires i <= |calls| && (i < |calls| ==> SameCall(calls[i], call))
    requires forall j :: 0 <= j < i ==> !SameCall(calls[j], call)
    ensures CallIndex(calls, call) == i
    decreases |calls|
  {
    if i > 0 { CallIndexIs(calls[1..], call, i - 1); }
  }
}
