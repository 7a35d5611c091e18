/**
 * `HTMLElement.prototype.class` and `removeClass`: add a class name to the
 * space-separated `className` unless `split(' ')` already finds it, and
 * remove the first occurrence of one.
 */
module ClassNames {
  import opened Text

  /** Position of the first `x` in `xs`, as `indexOf` finds it. */
  function IndexOf(xs: seq<string>, x: string): (i: nat)
    requires x in xs
    ensures i < |xs| && xs[i] == x
    ensures forall j :: 0 <= j < i ==> xs[j] != x
  {
    if xs[0] == x then 0 else 1 + IndexOf(xs[1..], x)
  }

  /** `list.splice(indexOf(x), 1)`. */
  function RemoveFirst(xs: seq<string>, x: string): (r: seq<string>)
    requires x in xs
    ensures |r| == |xs| - 1
    ensures multiset(r) == multiset(xs) - multiset{x}
  {
    var i := IndexOf(xs, x);
    assert xs == xs[..i] + [x] + xs[i + 1..];
    xs[..i] + xs[i + 1..]
  }

  /** The new `className` after `class(c)`. */
  function WithClass(className: string, c: string): string
  {
    if c in Split(className, ' ') then className else className + " " + c
  }

  /** The new `className` after `removeClass(c)`. */
  function WithoutClass(className: string, c: string): string
  {
    var list := Split(className, ' ');
    if c in list then Join(RemoveFirst(list, c), ' ') else className
  }

  /** Adding a class name without spaces appends exactly that name to the class list, once. */
  lemma WithClassList(className: string, c: string)
    requires ' ' !in c
    ensures Split(WithClass(className, c), ' ') ==
            if c in Split(className, ' ') then Split(className, ' ') else Split(className, ' ') + [c]
  {
    if c !in Split(className, ' ') {
      SplitAt(className, c, ' ');
      SplitPlain(c, ' ');
    }
  }

  /** `class(c)` twice is `class(c)` once. */
  lemma WithClassIdempotent(className: string, c: string)
    requires ' ' !in c
    ensures WithClass(WithClass(className, c), c) == WithClass(className, c)
  {
    WithClassList(className, c);
  }

  /** `removeClass(c)` undoes a `class(c)` that added a new name. */
  lemma WithoutUndoesWith(className: string, c: string)
    requires ' ' !in c
    requires c !in Split(className, ' ')
    ensures WithoutClass(WithClass(className, c), c) == className
  {
    var list := Split(className, ' ');
    WithClassList(className, c);
    var added := list + [c];
    assert IndexOf(added, c) == |list| by {
      assert forall j :: 0 <= j < |list| ==> added[j] == list[j];
    }
    assert RemoveFirst(added, c) == list;
    JoinSplit(className, ' ');
  }

  /**
   * `removeClass(c)` takes out the first `c` and keeps every other name in
   * order; removing the only name leaves `""`, whose split is `[""]`.
   */
  lemma WithoutClassList(className: string, c: string)
    requires c in Split(className, ' ')
    ensures |Split(className, ' ')| == 1 ==> Split(WithoutClass(className, c), ' ') == [""]
    ensures |Split(className, ' ')| > 1 ==> Split(WithoutClass(className, c), ' ') == RemoveFirst(Split(className, ' '), c)
  {
    var rest := RemoveFirst(Split(className, ' '), c);
    assert WithoutClass(className, c) == Join(rest, ' ');
    if |rest| > 0 {
      SplitPiecesFree(className, ' ');
      RemainingNamesPlain(Split(className, ' '), c);
      SplitJoin(rest, ' ');
    }
  }

  /** The names left after removing one are still free of spaces. */
  lemma RemainingNamesPlain(list: seq<string>, c: string)
    requires c in list
    requires forall k :: 0 <= k < |list| ==> ' ' !in list[k]
    ensures forall k :: 0 <= k < |RemoveFirst(list, c)| ==> ' ' !in RemoveFirst(list, c)[k]
  {
    var rest := RemoveFirst(list, c);
    var i := IndexOf(list, c);
    forall k | 0 <= k < |rest| ensures ' ' !in rest[k] {
      if k < i { assert rest[k] == list[k]; } else { assert rest[k] == list[k + 1]; }
    }
  }

  /** An element whose `className` the two helpers update in place. */
  class Element {
    var className: string

    constructor (className: string)
      ensures this.className == className
    {
      this.className := className;
    }

    method Class(c: string)
      modifies this
      ensures className == WithClass(old(className), c)
    {
      var existingClasses := Split(className, ' ');
      if c !in existingClasses {
        className := className + " " + c;
      }
    }

    method RemoveClass(c: string)
      modifies this
      ensures className == WithoutClass(old(className), c)
    {
      var classList := Split(className, ' ');
      if c in classList {
        var pos := IndexOf(classList, c);
        className := Join(classList[..pos] + classList[pos + 1..], ' ');
      }
    }
  }
}
