/** The array expressions the hook and the component apply to a `Todo[]`:
    `some`, `find`, the replacing `map` and the removing `filter`, all keyed by id. */
module TodoList {
  import opened Base
  import opened TodoTypes

  /** `todos.some(todo => todo.id === id)`. */
  predicate HasId(s: seq<Todo>, id: int)
  {
    exists i :: 0 <= i < |s| && s[i].id == id
  }

  /** No two elements share an id. */
  predicate DistinctIds(s: seq<Todo>)
  {
    forall i, j :: 0 <= i < j < |s| ==> s[i].id != s[j].id
  }

  /** How many elements carry `id`. */
  function CountId(s: seq<Todo>, id: int): nat
    decreases |s|
  {
    if |s| == 0 then 0
    else (if s[0].id == id then 1 else 0) + CountId(s[1..], id)
  }

  /** `todos.find(t => t.id === id)`: the first element carrying `id`. */
  function Find(s: seq<Todo>, id: int): (r: Option<Todo>)
    ensures r.None? <==> !HasId(s, id)
    ensures r.Some? ==> exists i :: 0 <= i < |s| && s[i] == r.value && r.value.id == id && !HasId(s[..i], id)
    decreases |s|
  {
    if |s| == 0 then None
    else if s[0].id == id then
      assert s[..0] == [];
      Some(s[0])
    else
      var r := Find(s[1..], id);
      assert HasId(s[1..], id) ==> HasId(s, id) by {
        if HasId(s[1..], id) {
          var i :| 0 <= i < |s[1..]| && s[1..][i].id == id;
          assert s[i + 1].id == id;
        }
      }
      assert HasId(s, id) ==> HasId(s[1..], id) by {
        if HasId(s, id) {
          var i :| 0 <= i < |s| && s[i].id == id;
          assert i > 0 && s[1..][i - 1].id == id;
        }
      }
      if r.Some? then
        var i :| 0 <= i < |s[1..]| && s[1..][i] == r.value && r.value.id == id && !HasId(s[1..][..i], id);
        assert s[i + 1] == r.value;
        var head, tail := s[..i + 1], s[1..][..i];
        forall j | 0 <= j < |head| ensures head[j].id != id {
          if j > 0 { assert head[j] == tail[j - 1]; }
        }
        r
      else r
  }

  /** `todos.map(t => t.id === id ? r : t)`: every element carrying `id` becomes
      `r`, every other element stays where it was. */
  function ReplaceById(s: seq<Todo>, id: int, r: Todo): (out: seq<Todo>)
    ensures |out| == |s|
    ensures forall i :: 0 <= i < |s| ==> out[i] == (if s[i].id == id then r else s[i])
    decreases |s|
  {
    if |s| == 0 then []
    else [if s[0].id == id then r else s[0]] + ReplaceById(s[1..], id, r)
  }

  /** `todos.filter(t => t.id !== id)`: the elements not carrying `id`. */
  function RemoveById(s: seq<Todo>, id: int): (out: seq<Todo>)
    ensures |out| <= |s|
    ensures !HasId(out, id)
    ensures !HasId(s, id) ==> out == s
    ensures forall t :: t in out ==> t in s
    decreases |s|
  {
    if |s| == 0 then []
    else
      var rest := RemoveById(s[1..], id);
      assert !HasId(s, id) ==> !HasId(s[1..], id) by {
        if HasId(s[1..], id) {
          var i :| 0 <= i < |s[1..]| && s[1..][i].id == id;
          assert s[i + 1].id == id;
        }
      }
      if s[0].id == id then rest
      else
        forall i | 0 <= i < |[s[0]] + rest| ensures ([s[0]] + rest)[i].id != id {
          if i > 0 { assert ([s[0]] + rest)[i] == rest[i - 1]; }
        }
        assert !HasId(s, id) ==> [s[0]] + s[1..] == s;
        [s[0]] + rest
  }

  /** Each index plus one. */
  function Shift(k: seq<nat>): (r: seq<nat>)
    ensures |r| == |k| && forall a :: 0 <= a < |k| ==> r[a] == k[a] + 1
    ensures forall i :: i in r <==> (i > 0 && (i - 1) in k)
  {
    var r := seq(|k|, a requires 0 <= a < |k| => k[a] + 1);
    assert forall a :: 0 <= a < |k| ==> r[a] == k[a] + 1;
    r
  }

  /** The positions of `s` that `RemoveById(s, id)` keeps: increasing, in range,
      and exactly the positions whose element does not carry `id`. */
  function KeptIndices(s: seq<Todo>, id: int): (k: seq<nat>)
    ensures forall a :: 0 <= a < |k| ==> k[a] < |s|
    ensures forall a, b :: 0 <= a < b < |k| ==> k[a] < k[b]
    ensures forall i :: 0 <= i < |s| ==> (s[i].id != id <==> i in k)
    decreases |s|
  {
    if |s| == 0 then []
    else
      var sh := Shift(KeptIndices(s[1..], id));
      assert forall i :: 1 <= i < |s| ==> s[i] == s[1..][i - 1];
      if s[0].id == id then sh else [0] + sh
  }

  /** Reading `s[1..]` at `k` is reading `s` at `Shift(k)`, and prepending `s[0]`
      matches prepending position 0. */
  lemma ReadAtShifted(s: seq<Todo>, k: seq<nat>, out: seq<Todo>)
    requires |s| > 0 && |k| == |out|
    requires forall a :: 0 <= a < |k| ==> k[a] < |s| - 1 && out[a] == s[1..][k[a]]
    ensures forall a :: 0 <= a < |k| ==> out[a] == s[Shift(k)[a]]
    ensures forall a :: 0 <= a < |k| + 1 ==> ([s[0]] + out)[a] == s[([0] + Shift(k))[a]]
  {
    var sh := Shift(k);
    forall a | 0 <= a < |k| ensures out[a] == s[sh[a]] {
      assert s[1..][k[a]] == s[k[a] + 1];
    }
    forall a | 0 < a < |k| + 1 ensures ([s[0]] + out)[a] == s[([0] + sh)[a]] {
      assert ([s[0]] + out)[a] == out[a - 1] && ([0] + sh)[a] == sh[a - 1];
    }
  }

  /** `RemoveById` keeps the elements whose id differs in their original relative
      order: its result is `s` read at the positions `KeptIndices(s, id)`. */
  lemma {:induction false} RemoveKeepsOrder(s: seq<Todo>, id: int)
    ensures |KeptIndices(s, id)| == |RemoveById(s, id)|
    ensures forall a :: 0 <= a < |KeptIndices(s, id)| ==> RemoveById(s, id)[a] == s[KeptIndices(s, id)[a]]
    decreases |s|
  {
    if |s| > 0 {
      var k0, out0 := KeptIndices(s[1..], id), RemoveById(s[1..], id);
      RemoveKeepsOrder(s[1..], id);
      ReadAtShifted(s, k0, out0);
      if s[0].id != id {
        assert KeptIndices(s, id) == [0] + Shift(k0);
        assert RemoveById(s, id) == [s[0]] + out0;
      } else {
        assert KeptIndices(s, id) == Shift(k0);
        assert RemoveById(s, id) == out0;
      }
    }
  }

  /** Removing keeps ids distinct. */
  lemma RemovePreservesDistinct(s: seq<Todo>, id: int)
    requires DistinctIds(s)
    ensures DistinctIds(RemoveById(s, id))
  {
    RemoveKeepsOrder(s, id);
    var out, k := RemoveById(s, id), KeptIndices(s, id);
    forall a, b | 0 <= a < b < |out| ensures out[a].id != out[b].id {
      assert k[a] < k[b] < |s|;
    }
  }

  /** When the replacement carries the id it replaces, every position keeps its id. */
  lemma ReplaceKeepsIds(s: seq<Todo>, r: Todo)
    ensures var out := ReplaceById(s, r.id, r);
      |out| == |s| && forall i :: 0 <= i < |s| ==> out[i].id == s[i].id
  {
  }

  /** With distinct ids an id occurs at most once, and at least once when present. */
  lemma {:induction false} CountInDistinct(s: seq<Todo>, id: int)
    requires DistinctIds(s)
    ensures CountId(s, id) == (if HasId(s, id) then 1 else 0)
    decreases |s|
  {
    if |s| > 0 {
      assert DistinctIds(s[1..]) by {
        forall i, j | 0 <= i < j < |s[1..]| ensures s[1..][i].id != s[1..][j].id {
          assert s[1..][i] == s[i + 1] && s[1..][j] == s[j + 1];
        }
      }
      CountInDistinct(s[1..], id);
      assert HasId(s[1..], id) ==> HasId(s, id) by {
        if HasId(s[1..], id) {
          var i :| 0 <= i < |s[1..]| && s[1..][i].id == id;
          assert s[i + 1].id == id;
        }
      }
      if s[0].id == id {
        forall i | 0 <= i < |s[1..]| ensures s[1..][i].id != id {
          assert s[1..][i] == s[i + 1];
        }
      } else {
        assert HasId(s, id) ==> HasId(s[1..], id) by {
          if HasId(s, id) {
            var i :| 0 <= i < |s| && s[i].id == id;
            assert i > 0 && s[1..][i - 1].id == id;
          }
        }
      }
    }
  }
}
