/** Sets of names as sorted sequences. */
module NameOrder {

  function Elements(names: seq<string>): set<string> {
    set i | 0 <= i < |names| :: names[i]
  }

  lemma ElementsAppend(names: seq<string>, t: string)
    ensures Elements(names + [t]) == Elements(names) + {t}
  {
    var more := names + [t];
    assert more[|names|] == t;
    assert forall i | 0 <= i < |names| :: more[i] == names[i];
  }

  /** The order of Python strings: by code points, a prefix first. */
  predicate Before(a: string, b: string) {
    b != "" && (a == "" || a[0] < b[0] || (a[0] == b[0] && Before(a[1..], b[1..])))
  }

  predicate Ordered(names: seq<string>) {
    forall i, j | 0 <= i < j < |names| :: Before(names[i], names[j])
  }

  predicate AllBefore(names: seq<string>, left: set<string>) {
    forall i, u | 0 <= i < |names| && u in left :: Before(names[i], u)
  }

  lemma OrderedAppend(names: seq<string>, t: string, left: set<string>)
    requires Ordered(names) && AllBefore(names, left)
    requires Least(t, left)
    ensures Ordered(names + [t]) && AllBefore(names + [t], left - {t})
  {
  }

  predicate Least(t: string, names: set<string>) {
    t in names && forall u | u in names && u != t :: Before(t, u)
  }

  lemma MoveOne(e: set<string>, left: set<string>, t: string)
    requires t in left
    ensures e + left == (e + {t}) + (left - {t})
  {
  }

  lemma {:induction false} BeforeIsTotal(a: string, b: string)
    ensures a == b || Before(a, b) || Before(b, a)
  {
    if a == "" || b == "" || a[0] != b[0] {
    } else {
      BeforeIsTotal(a[1..], b[1..]);
      assert a == [a[0]] + a[1..] && b == [b[0]] + b[1..];
    }
  }

  lemma {:induction false} BeforeIsTransitive(a: string, b: string, c: string)
    requires Before(a, b) && Before(b, c)
    ensures Before(a, c)
  {
    if a == "" || a[0] != b[0] || b[0] != c[0] {
    } else {
      BeforeIsTransitive(a[1..], b[1..], c[1..]);
    }
  }

  lemma {:induction false} LeastExists(names: set<string>)
    requires names != {}
    ensures exists t :: t in names && Least(t, names)
    decreases |names|
  {
    var x :| x in names;
    var rest := names - {x};
    if rest == {} {
      assert names == {x};
      assert Least(x, names);
    } else {
      LeastExists(rest);
      var t :| Least(t, rest);
      BeforeIsTotal(x, t);
      assert names == rest + {x};
      LeastOfMore(t, rest, x);
    }
  }

  lemma LeastOfMore(t: string, rest: set<string>, x: string)
    requires Least(t, rest) && x !in rest
    requires Before(x, t) || Before(t, x)
    ensures Least(if Before(x, t) then x else t, rest + {x})
  {
    if Before(x, t) {
      forall u | u in rest ensures Before(x, u) {
        if u != t {
          BeforeIsTransitive(x, t, u);
        }
      }
    }
  }
}
