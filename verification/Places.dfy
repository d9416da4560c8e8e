// Where a stream's tool-call fragments belong. The router (collectDelta in
// src/routing/router.js) and toOllamaStream (src/inbound/ollamaInbound.js) keep
// the calls in an array: a fragment goes to the index it names, else behind the
// last element.

module Places {
  import opened Text
  import opened AnthropicStream

  function TextIn(e: Event): string {
    if e.Some? && e.value.choice.Some? then e.value.choice.value.text else ""
  }

  function AllText(es: seq<Event>): string {
    if es == [] then "" else AllText(es[..|es| - 1]) + TextIn(es[|es| - 1])
  }

  function FragmentsOf(e: Event): seq<Call> {
    if e.Some? && e.value.choice.Some? then e.value.choice.value.calls else []
  }

  function Fragments(es: seq<Event>): seq<Call> {
    if es == [] then [] else Fragments(es[..|es| - 1]) + FragmentsOf(es[|es| - 1])
  }

  predicate Indexed(cs: seq<Call>) {
    forall i :: 0 <= i < |cs| ==> cs[i].index.Some?
  }

  predicate Unindexed(cs: seq<Call>) {
    forall i :: 0 <= i < |cs| ==> cs[i].index.None?
  }

  // --- the array of calls ---------------------------------------------------

  datatype Slot = Slot(name: string, args: string)

  // A JavaScript array with holes. Only indices below 2^32 - 1 are elements of
  // it; any other integer names a plain property that filter() never visits.
  datatype Slots = Slots(at: map<int, Slot>, length: nat)

  predicate IsElement(i: int) { 0 <= i < 0xFFFF_FFFF }

  function IndexOf(s: Slots, c: Call): int {
    if c.index.Some? then c.index.value else s.length
  }

  function Stitch(s: Slots, c: Call): Slots {
    var i := IndexOf(s, c);
    var slot := if i in s.at then s.at[i] else Slot("", "");
    Slots(s.at[i := Slot(slot.name + c.name, slot.args + c.args)],
          if IsElement(i) && i >= s.length then i + 1 else s.length)
  }

  function StitchAll(cs: seq<Call>): Slots {
    if cs == [] then Slots(map[], 0) else Stitch(StitchAll(cs[..|cs| - 1]), cs[|cs| - 1])
  }

  lemma NextFragment(before: seq<Call>, cs: seq<Call>, i: nat)
    requires i < |cs|
    ensures StitchAll(before + cs[..i + 1]) == Stitch(StitchAll(before + cs[..i]), cs[i])
  {
    assert (before + cs[..i + 1])[..|before| + i] == before + cs[..i];
  }

  // --- where fragments go ---------------------------------------------------

  // The fragments that are put at index i, in order.
  function Placed(cs: seq<Call>, i: int): seq<Call> {
    if cs == [] then []
    else
      var init, c := cs[..|cs| - 1], cs[|cs| - 1];
      Placed(init, i) + (if IndexOf(StitchAll(init), c) == i then [c] else [])
  }

  function Names(cs: seq<Call>): string {
    if cs == [] then "" else Names(cs[..|cs| - 1]) + cs[|cs| - 1].name
  }

  function ArgsText(cs: seq<Call>): string {
    if cs == [] then "" else ArgsText(cs[..|cs| - 1]) + cs[|cs| - 1].args
  }

  // One call: its fragments put together.
  function Joined(cs: seq<Call>): Slot { Slot(Names(cs), ArgsText(cs)) }

  lemma JoinedMore(cs: seq<Call>, c: Call)
    ensures Joined(cs + [c]) == Slot(Joined(cs).name + c.name, Joined(cs).args + c.args)
  {
    assert (cs + [c])[..|cs|] == cs;
  }

  // Each slot holds exactly the fragments put there; every slot at an array
  // index is below the length.
  lemma {:induction false} SlotHoldsFragments(cs: seq<Call>, i: int)
    ensures i in StitchAll(cs).at <==> Placed(cs, i) != []
    ensures i in StitchAll(cs).at ==> StitchAll(cs).at[i] == Joined(Placed(cs, i))
    ensures i in StitchAll(cs).at && IsElement(i) ==> i < StitchAll(cs).length
  {
    if cs != [] {
      var init, c := cs[..|cs| - 1], cs[|cs| - 1];
      SlotHoldsFragments(init, i);
      if IndexOf(StitchAll(init), c) == i {
        JoinedMore(Placed(init, i), c);
      } else {
        NothingBehind(Placed(init, i));
      }
    }
  }

  lemma {:induction false} LengthIsArrays(cs: seq<Call>)
    ensures StitchAll(cs).length <= 0xFFFF_FFFF
  {
    if cs != [] {
      LengthIsArrays(cs[..|cs| - 1]);
    }
  }
}
