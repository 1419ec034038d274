/**
 * eventBus.js: a table from event name to the list of handlers registered
 * under it. Handlers are compared by identity (`!==`), which is equality on
 * the handler type here. What a handler does when called is not modelled:
 * `Emit` returns the calls it makes, in order.
 */
module Events {
  import opened Opt

  /** `events[name] || []`. */
  function HandlersOf<H>(events: map<string, seq<H>>, name: string): (hs: seq<H>)
    ensures name in events ==> hs == events[name]
    ensures name !in events ==> hs == []
  {
    if name in events then events[name] else []
  }

  /** `list.filter(f => f !== fn)`. */
  function Without<H(==)>(hs: seq<H>, fn: H): (r: seq<H>)
    ensures fn !in r
    ensures multiset(r) == multiset(hs)[fn := 0]
    ensures |r| <= |hs|
    decreases |hs|
  {
    if hs == [] then []
    else
      assert hs == [hs[0]] + hs[1..];
      if hs[0] == fn then Without(hs[1..], fn) else [hs[0]] + Without(hs[1..], fn)
  }

  /** Filtering distributes over concatenation, so the kept handlers stay in order. */
  lemma {:induction false} WithoutAppend<H>(a: seq<H>, b: seq<H>, fn: H)
    ensures Without(a + b, fn) == Without(a, fn) + Without(b, fn)
    decreases |a|
  {
    if a == [] {
      assert a + b == b;
    } else {
      assert (a + b)[1..] == a[1..] + b;
      WithoutAppend(a[1..], b, fn);
    }
  }

  /** Filtering a list without `fn` leaves it as it is. */
  lemma {:induction false} WithoutAbsent<H>(hs: seq<H>, fn: H)
    requires fn !in hs
    ensures Without(hs, fn) == hs
    decreases |hs|
  {
    if hs != [] {
      assert fn !in hs[1..];
      WithoutAbsent(hs[1..], fn);
    }
  }

  /** Registering `fn` and then removing it leaves the list as if `fn` had only been removed. */
  lemma OnThenOff<H>(hs: seq<H>, fn: H)
    ensures Without(hs + [fn], fn) == Without(hs, fn)
  {
    WithoutAppend(hs, [fn], fn);
    assert Without([fn], fn) == [];
  }

  /**
   * The properties every plain object inherits from `Object.prototype`.
   * `events[name]` finds one of them when `name` has no entry of its own,
   * and none of them is an array, so the array calls on it throw.
   */
  const InheritedNames: set<string> := {
    "constructor", "hasOwnProperty", "isPrototypeOf", "propertyIsEnumerable",
    "toLocaleString", "toString", "valueOf", "__proto__",
    "__defineGetter__", "__defineSetter__", "__lookupGetter__", "__lookupSetter__"
  }

  /**
   * The one event name the components use, `'screenshot-taken'`, is not
   * inherited, so `on`, `off` and `emit` on it never throw.
   */
  lemma AppEventNotInherited()
    ensures "screenshot-taken" !in InheritedNames
    ensures "toString" in InheritedNames && "constructor" in InheritedNames
  {
  }

  class EventBus<H(==)> {
    var events: map<string, seq<H>>

    constructor ()
      ensures events == map[]
    {
      events := map[];
    }

    /**
     * `on`: appends `fn` to the name's list, creating an empty list first.
     * On an inherited name without an entry of its own, `push` throws
     * (`ok` false) and nothing changes.
     */
    method On(name: string, fn: H) returns (ok: bool)
      modifies this
      ensures ok <==> name in old(events) || name !in InheritedNames
      ensures !ok ==> events == old(events)
      ensures ok ==> name in events && events[name] == HandlersOf(old(events), name) + [fn]
      ensures ok ==> events.Keys == old(events).Keys + {name}
      ensures forall n | n in old(events) && n != name :: n in events && events[n] == old(events)[n]
    {
      if name in events {
        events := events[name := events[name] + [fn]];
        ok := true;
      } else if name in InheritedNames {
        ok := false;
      } else {
        events := events[name := [fn]];
        ok := true;
      }
    }

    /**
     * `off`: with a handler given, removes every registration of it and keeps
     * the other handlers in order; without one, deletes the name's entry. A
     * name with no entry is left alone, except that `filter` throws (`ok`
     * false) on an inherited name when a handler is given.
     */
    method Off(name: string, fn: Option<H>) returns (ok: bool)
      modifies this
      ensures ok <==> name in old(events) || name !in InheritedNames || fn.None?
      ensures name !in old(events) ==> events == old(events)
      ensures name in old(events) && fn.Some? ==>
        events == old(events)[name := Without(old(events)[name], fn.value)]
      ensures name in old(events) && fn.None? ==> events == old(events) - {name}
      ensures forall n | n in old(events) && n != name :: n in events && events[n] == old(events)[n]
      ensures events.Keys <= old(events).Keys
    {
      ok := true;
      if name in events {
        if fn.Some? {
          events := events[name := Without(events[name], fn.value)];
        } else {
          events := events - {name};
        }
      } else if name in InheritedNames && fn.Some? {
        ok := false;
      }
    }

    /**
     * `emit`: one call per registration under `name`, with `data`, in
     * registration order; none for an unregistered name. On an inherited
     * name without an entry of its own, `forEach` throws (`ok` false)
     * before any handler runs.
     */
    method Emit<D>(name: string, data: D) returns (calls: seq<(H, D)>, ok: bool)
      ensures ok <==> name in events || name !in InheritedNames
      ensures |calls| == |HandlersOf(events, name)|
      ensures forall i | 0 <= i < |calls| :: calls[i] == (HandlersOf(events, name)[i], data)
    {
      calls := [];
      ok := name in events || name !in InheritedNames;
      if name in events {
        var hs := events[name];
        for i := 0 to |hs|
          invariant |calls| == i
          invariant forall k | 0 <= k < i :: calls[k] == (hs[k], data)
        {
          calls := calls + [(hs[i], data)];
        }
      }
    }
  }
}
