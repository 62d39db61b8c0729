/** The renderer registries of schemascii/components_render.py and
    schemascii/OLD_components_render.py: a dict from upper-cased reference
    designator letters to the function that draws the component. Both
    decorators register the designators one at a time and raise
    RuntimeError at the first one already taken. */
module RenderRegistry {
  import opened Base
  import opened Text

  /** What registering `func` under `rds` leaves in the table, and the error
      raised, if any: each designator is upper-cased, and the first one
      already present raises `taken(designator)`, the ones before it staying
      registered. */
  function RegisterAll<F>(table: map<string, F>, rds: seq<string>, func: F, taken: string -> Error)
    : (r: (map<string, F>, Option<Error>))
    decreases |rds|
  {
    if |rds| == 0 then (table, None)
    else if Upper(rds[0]) in table then (table, Some(taken(Upper(rds[0]))))
    else RegisterAll(table[Upper(rds[0]) := func], rds[1..], func, taken)
  }

  /** The upper-cased designators. */
  function Uppers(rds: seq<string>): (r: seq<string>)
    ensures |r| == |rds|
  {
    if |rds| == 0 then [] else [Upper(rds[0])] + Uppers(rds[1..])
  }

  lemma {:induction false} UppersAt(rds: seq<string>, k: nat)
    requires k < |rds|
    ensures Uppers(rds)[k] == Upper(rds[k])
  {
    if k > 0 {
      UppersAt(rds[1..], k - 1);
    }
  }

  /** Every upper-cased designator is new and none is repeated. */
  predicate AllFree<F>(table: map<string, F>, rds: seq<string>)
  {
    (forall k :: 0 <= k < |rds| ==> Upper(rds[k]) !in table) && Distinct(Uppers(rds))
  }

  lemma AllFreeCons<F>(table: map<string, F>, rds: seq<string>, func: F)
    requires |rds| > 0 && Upper(rds[0]) !in table
    ensures AllFree(table[Upper(rds[0]) := func], rds[1..]) <==> AllFree(table, rds)
  {
    var rest := rds[1..];
    var u, ur := Uppers(rds), Uppers(rest);
    var u0 := Upper(rds[0]);
    assert u == [u0] + ur;
    if AllFree(table[u0 := func], rest) {
      forall i, j | 0 <= i < j < |u| ensures u[i] != u[j] {
        assert u[j] == ur[j - 1];
        if i > 0 {
          assert u[i] == ur[i - 1];
        } else {
          UppersAt(rest, j - 1);
          assert Upper(rest[j - 1]) !in table[u0 := func];
        }
      }
    }
    if AllFree(table, rds) {
      forall k | 0 <= k < |rest| ensures Upper(rest[k]) !in table[u0 := func] {
        UppersAt(rest, k);
        assert u[0] != u[k + 1];
      }
      forall i, j | 0 <= i < j < |ur| ensures ur[i] != ur[j] {
        assert ur[i] == u[i + 1] && ur[j] == u[j + 1];
      }
    }
  }

  /** Registration succeeds exactly when every upper-cased designator is
      free and listed once, and then each of them is mapped to the
      function. */
  lemma {:induction false} RegisterAllSucceeds<F>(table: map<string, F>, rds: seq<string>, func: F, taken: string -> Error)
    ensures RegisterAll(table, rds, func, taken).1.None? <==> AllFree(table, rds)
    ensures var t := RegisterAll(table, rds, func, taken).0;
            RegisterAll(table, rds, func, taken).1.None? ==>
              forall k :: 0 <= k < |rds| ==> Upper(rds[k]) in t && t[Upper(rds[k])] == func
    decreases |rds|
  {
    if |rds| > 0 {
      if Upper(rds[0]) !in table {
        var t := RegisterAll(table, rds, func, taken).0;
        RegisterAllSucceeds(table[Upper(rds[0]) := func], rds[1..], func, taken);
        RegisterAllKeeps(table[Upper(rds[0]) := func], rds[1..], func, taken);
        AllFreeCons(table, rds, func);
        forall k | 1 <= k < |rds| ensures Upper(rds[k]) == Upper(rds[1..][k - 1]) {
        }
      } else {
        UppersAt(rds, 0);
      }
    }
  }

  /** Registration only adds: earlier entries stay, a new key is an
      upper-cased designator mapped to the function, and a failure is the
      `taken` error of a designator that was in the table. */
  lemma {:induction false} RegisterAllKeeps<F>(table: map<string, F>, rds: seq<string>, func: F, taken: string -> Error)
    ensures var (t, err) := RegisterAll(table, rds, func, taken);
      && (err.Some? ==> exists k :: 0 <= k < |rds| && Upper(rds[k]) in t && err.value == taken(Upper(rds[k])))
      && (forall n :: n in table ==> n in t && t[n] == table[n])
      && (forall n :: n in t ==> n in table || ((exists k :: 0 <= k < |rds| && n == Upper(rds[k])) && t[n] == func))
    decreases |rds|
  {
    if |rds| > 0 && Upper(rds[0]) !in table {
      var rest := rds[1..];
      RegisterAllKeeps(table[Upper(rds[0]) := func], rest, func, taken);
      var (t, err) := RegisterAll(table, rds, func, taken);
      if err.Some? {
        var k :| 0 <= k < |rest| && Upper(rest[k]) in t && err.value == taken(Upper(rest[k]));
        assert rest[k] == rds[k + 1];
      }
      forall n | n in t && n !in table
        ensures (exists k :: 0 <= k < |rds| && n == Upper(rds[k])) && t[n] == func
      {
        if n != Upper(rds[0]) {
          var k :| 0 <= k < |rest| && n == Upper(rest[k]);
          assert rest[k] == rds[k + 1];
        }
      }
    }
  }

  /** A registry of renderers, updated in place by the decorators. */
  class Table<F> {
    var entries: map<string, F>

    constructor ()
      ensures entries == map[]
    {
      entries := map[];
    }

    /** The decorator's loop: each designator upper-cased and added, raising
        at the first one already taken. */
    method Register(rds: seq<string>, func: F, taken: string -> Error) returns (err: Option<Error>)
      modifies this
      ensures (entries, err) == RegisterAll(old(entries), rds, func, taken)
    {
      for i := 0 to |rds|
        invariant RegisterAll(entries, rds[i..], func, taken) == RegisterAll(old(entries), rds, func, taken)
      {
        var rdu := Upper(rds[i]);
        assert rds[i..][1..] == rds[i + 1..];
        if rdu in entries {
          return Some(taken(rdu));
        }
        entries := entries[rdu := func];
      }
      return None;
    }
  }
}
