/** Routing keys held during a transition, and the entries their waiters block on. */
module HoldManager {
  import opened Basics

  /** Entries are numbered; `closings` records every close of a done channel, in order. */
  datatype Holds = Holds(entries: map<string, nat>, closings: seq<nat>, next: nat)

  function MarkOne(h: Holds, key: string): Holds {
    if key in h.entries then h else Holds(h.entries[key := h.next], h.closings, h.next + 1)
  }

  function ClearOne(h: Holds, key: string): Holds {
    if key in h.entries then Holds(h.entries - {key}, h.closings + [h.entries[key]], h.next) else h
  }

  function Mark(h: Holds, keys: seq<string>): Holds {
    if keys == [] then h else MarkOne(Mark(h, keys[..|keys| - 1]), keys[|keys| - 1])
  }

  function Clear(h: Holds, keys: seq<string>): Holds {
    if keys == [] then h else ClearOne(Clear(h, keys[..|keys| - 1]), keys[|keys| - 1])
  }

  /** Entries in the map are open and not shared; no channel was closed twice. */
  ghost predicate Sound(h: Holds) {
    && (forall k :: k in h.entries ==> h.entries[k] < h.next && h.entries[k] !in h.closings)
    && (forall k, l :: k in h.entries && l in h.entries && h.entries[k] == h.entries[l] ==> k == l)
    && (forall i :: 0 <= i < |h.closings| ==> h.closings[i] < h.next)
    && (forall i, j :: 0 <= i < j < |h.closings| ==> h.closings[i] != h.closings[j])
  }

  /** A waiter's entry is still in the map or its channel is closed. */
  ghost predicate Released(h: Holds, id: nat) {
    id in h.closings || exists k :: k in h.entries && h.entries[k] == id
  }

  lemma MarkOneSound(h: Holds, key: string)
    requires Sound(h)
    ensures Sound(MarkOne(h, key))
  {
  }

  lemma {:induction false} MarkHolds(h: Holds, keys: seq<string>)
    requires Sound(h)
    ensures Sound(Mark(h, keys))
    ensures Mark(h, keys).entries.Keys == h.entries.Keys + Elems(keys)
    ensures forall k :: k in h.entries ==> Mark(h, keys).entries[k] == h.entries[k]
    ensures Mark(h, keys).closings == h.closings
  {
    hide Sound;
    if keys != [] {
      var before, last := keys[..|keys| - 1], keys[|keys| - 1];
      MarkHolds(h, before);
      MarkOneSound(Mark(h, before), last);
      assert Elems(keys) == Elems(before) + {last};
    }
  }

  lemma {:induction false} ClearReleases(h: Holds, keys: seq<string>)
    requires Sound(h)
    ensures Sound(Clear(h, keys))
    ensures Clear(h, keys).entries == h.entries - Elems(keys)
    ensures forall id :: id in h.closings ==> id in Clear(h, keys).closings
    ensures forall k :: k in h.entries && k in keys ==> h.entries[k] in Clear(h, keys).closings
  {
    hide Sound, ClearOne;
    if keys != [] {
      var before, last := keys[..|keys| - 1], keys[|keys| - 1];
      ClearReleases(h, before);
      ClearOneSound(Clear(h, before), last);
      assert Elems(keys) == Elems(before) + {last};
      assert forall k :: k in keys ==> k in before || k == last;
    }
  }

  lemma ClearOneSound(h: Holds, key: string)
    requires Sound(h)
    ensures Sound(ClearOne(h, key))
    ensures ClearOne(h, key).entries == h.entries - {key}
    ensures forall id :: id in h.closings ==> id in ClearOne(h, key).closings
    ensures key in h.entries ==> h.entries[key] in ClearOne(h, key).closings
  {
    if key in h.entries {
      var log := h.closings + [h.entries[key]];
      assert forall id :: id in log <==> id in h.closings || id == h.entries[key];
    }
  }

  /** Waiters are never stranded: marking and clearing keep every entry in the map or closed. */
  lemma WaitersReleased(h: Holds, keys: seq<string>, id: nat)
    requires Sound(h) && Released(h, id)
    ensures Released(Mark(h, keys), id) && Released(Clear(h, keys), id)
  {
    MarkHolds(h, keys);
    ClearReleases(h, keys);
    if id !in h.closings {
      var k :| k in h.entries && h.entries[k] == id;
      assert k in Mark(h, keys).entries;
      assert k !in keys ==> k in Clear(h, keys).entries;
    }
  }

  class HoldManager {
    var holds: map<string, nat>
    var closings: seq<nat>
    var next: nat

    constructor ()
      ensures State() == Holds(map[], [], 0)
    {
      holds, closings, next := map[], [], 0;
    }

    ghost function State(): Holds
      reads this
    {
      Holds(holds, closings, next)
    }

    method MarkTransition(keys: seq<string>)
      modifies this
      ensures State() == Mark(old(State()), keys)
    {
      for i := 0 to |keys|
        invariant State() == Mark(old(State()), keys[..i])
      {
        assert keys[..i + 1][..|keys[..i + 1]| - 1] == keys[..i];
        var key := keys[i];
        if key !in holds {
          holds := holds[key := next];
          next := next + 1;
        }
      }
      assert keys[..|keys|] == keys;
    }

    method ClearTransition(keys: seq<string>)
      modifies this
      ensures State() == Clear(old(State()), keys)
    {
      for i := 0 to |keys|
        invariant State() == Clear(old(State()), keys[..i])
      {
        assert keys[..i + 1][..|keys[..i + 1]| - 1] == keys[..i];
        var key := keys[i];
        if key in holds {
          closings := closings + [holds[key]];
          holds := holds - {key};
        }
      }
      assert keys[..|keys|] == keys;
    }

    /** The entry a request for `key` blocks on, if the key is in transition. */
    method Lookup(key: string) returns (entry: Option<nat>)
      ensures entry.Some? <==> key in holds
      ensures entry.Some? ==> entry.value == holds[key] && Released(State(), entry.value)
    {
      if key !in holds {
        return None;
      }
      entry := Some(holds[key]);
    }
  }
}
