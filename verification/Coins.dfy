/** Coin names in their sorted order, and the capped choice of coins to subscribe to. */
module Coins {
  import Sets

  /** Strict lexicographic order of strings. */
  predicate Before(a: string, b: string) {
    b != [] && (a == [] || a[0] < b[0] || (a[0] == b[0] && Before(a[1..], b[1..])))
  }

  /** Dictionary order: after a common beginning, `a` ends or goes on with a smaller character. */
  ghost predicate InOrderOf(a: string, b: string) {
    exists i: nat :: i <= |a| && i < |b| && a[..i] == b[..i] && (i == |a| || a[i] < b[i])
  }

  lemma {:induction false} BeforeIsDictionaryOrder(a: string, b: string)
    ensures Before(a, b) <==> InOrderOf(a, b)
  {
    if b != [] && a != [] {
      BeforeIsDictionaryOrder(a[1..], b[1..]);
      if i: nat :| i <= |a| && i < |b| && a[..i] == b[..i] && (i == |a| || a[i] < b[i]) {
        if i > 0 {
          assert a[0] == a[..i][0] == b[..i][0] == b[0];
          assert a[1..][..i - 1] == a[..i][1..] && b[1..][..i - 1] == b[..i][1..];
        }
      }
      if a[0] < b[0] { assert a[..0] == b[..0]; }
      if a[0] == b[0] {
        if i: nat :| i <= |a[1..]| && i < |b[1..]| && a[1..][..i] == b[1..][..i] && (i == |a[1..]| || a[1..][i] < b[1..][i]) {
          assert a[..i + 1] == [a[0]] + a[1..][..i] && b[..i + 1] == [b[0]] + b[1..][..i];
        }
      }
    } else if b != [] {
      assert a[..0] == b[..0];
    }
  }

  lemma {:induction false} BeforeIrreflexive(a: string)
    ensures !Before(a, a)
  {
    if a != [] { BeforeIrreflexive(a[1..]); }
  }

  lemma {:induction false} BeforeTransitive(a: string, b: string, c: string)
    requires Before(a, b) && Before(b, c)
    ensures Before(a, c)
  {
    if a != [] && a[0] == b[0] && b[0] == c[0] {
      BeforeTransitive(a[1..], b[1..], c[1..]);
    }
  }

  lemma {:induction false} BeforeTotal(a: string, b: string)
    requires a != b
    ensures Before(a, b) || Before(b, a)
  {
    if a != [] && b != [] && a[0] == b[0] {
      assert a == [a[0]] + a[1..] && b == [b[0]] + b[1..];
      BeforeTotal(a[1..], b[1..]);
    }
  }

  /** The sort key `(coin not in subscribed, coin)`: subscribed coins first, then by name. */
  predicate Precedes(subscribed: set<string>, a: string, b: string) {
    if (a in subscribed) == (b in subscribed) then Before(a, b) else a in subscribed
  }

  predicate IsFirst(s: set<string>, subscribed: set<string>, m: string) {
    m in s && forall x :: x in s && x != m ==> Precedes(subscribed, m, x)
  }

  lemma {:induction false} FirstExists(s: set<string>, subscribed: set<string>)
    requires s != {}
    ensures exists m :: IsFirst(s, subscribed, m)
    decreases s
  {
    var x :| x in s;
    if s == {x} {
      assert IsFirst(s, subscribed, x);
    } else {
      FirstExists(s - {x}, subscribed);
      var m :| IsFirst(s - {x}, subscribed, m);
      BeforeTotal(m, x);
      if Precedes(subscribed, m, x) {
        assert IsFirst(s, subscribed, m);
      } else {
        forall y | y in s && y != x ensures Precedes(subscribed, x, y) {
          if y != m {
            assert Precedes(subscribed, m, y);
            PrecedesTransitive(subscribed, x, m, y);
          }
        }
        assert IsFirst(s, subscribed, x);
      }
    }
  }

  lemma PrecedesTransitive(subscribed: set<string>, a: string, b: string, c: string)
    requires Precedes(subscribed, a, b) && Precedes(subscribed, b, c)
    ensures Precedes(subscribed, a, c)
  {
    if Before(a, b) && Before(b, c) { BeforeTransitive(a, b, c); }
  }

  lemma FirstUnique(s: set<string>, subscribed: set<string>, m: string, n: string)
    requires IsFirst(s, subscribed, m) && IsFirst(s, subscribed, n)
    ensures m == n
  {
    if m != n {
      PrecedesTransitive(subscribed, m, n, m);
      BeforeIrreflexive(m);
    }
  }

  /** The first of a nonempty set in key order. */
  function First(s: set<string>, subscribed: set<string>): (m: string)
    requires s != {}
    ensures IsFirst(s, subscribed, m)
  {
    FirstExists(s, subscribed);
    assert forall m, n :: IsFirst(s, subscribed, m) && IsFirst(s, subscribed, n) ==> m == n by {
      forall m, n | IsFirst(s, subscribed, m) && IsFirst(s, subscribed, n) ensures m == n {
        FirstUnique(s, subscribed, m, n);
      }
    }
    var m :| m in s && IsFirst(s, subscribed, m);
    m
  }

  /** The first `cap` candidates in key order. */
  function Choose(candidates: set<string>, subscribed: set<string>, cap: nat): set<string>
    decreases cap
  {
    if cap == 0 || candidates == {} then {}
    else
      var m := First(candidates, subscribed);
      {m} + Choose(candidates - {m}, subscribed, cap - 1)
  }

  /** The choice is a full one, and every chosen coin precedes every coin left out. */
  lemma {:induction false} ChooseIsFirstFew(candidates: set<string>, subscribed: set<string>, cap: nat)
    ensures var chosen := Choose(candidates, subscribed, cap);
            && chosen <= candidates
            && |chosen| == (if |candidates| < cap then |candidates| else cap)
            && forall a, b :: a in chosen && b in candidates - chosen ==> Precedes(subscribed, a, b)
    decreases cap
  {
    if cap != 0 && candidates != {} {
      var m := First(candidates, subscribed);
      ChooseIsFirstFew(candidates - {m}, subscribed, cap - 1);
      var rest := Choose(candidates - {m}, subscribed, cap - 1);
      assert |candidates - {m}| == |candidates| - 1;
      assert |{m} + rest| == 1 + |rest|;
    }
  }

  /** When the subscribed candidates fit under the cap, none of them is left out. */
  lemma SubscribedAreKept(candidates: set<string>, subscribed: set<string>, cap: nat)
    requires |subscribed| <= cap
    ensures subscribed * candidates <= Choose(candidates, subscribed, cap)
  {
    var chosen := Choose(candidates, subscribed, cap);
    ChooseIsFirstFew(candidates, subscribed, cap);
    forall c | c in subscribed && c in candidates ensures c in chosen {
      if c !in chosen {
        assert |chosen| == cap by {
          if |chosen| == |candidates| { Sets.SubsetSize(chosen, candidates); }
        }
        assert chosen <= subscribed by {
          forall a | a in chosen ensures a in subscribed {
            assert Precedes(subscribed, a, c);
          }
        }
        assert chosen < subscribed;
        Sets.SubsetSize(chosen, subscribed);
      }
    }
  }
}
