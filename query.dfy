/**
 * `query.filter(p)` over a table: the rows satisfying `p`, in row order.
 * This is the one filtering concept the model uses, both for the ride
 * search and for the relationship queries derived from the passenger table.
 */
module Query {
  function Where<T>(s: seq<T>, p: T -> bool): (r: seq<T>)
    ensures |r| <= |s|
    decreases |s|
  {
    if s == [] then []
    else if p(s[0]) then [s[0]] + Where(s[1..], p)
    else Where(s[1..], p)
  }

  /** A row is selected exactly when it is in the table and satisfies the predicate. */
  lemma {:induction false} WhereMembership<T>(s: seq<T>, p: T -> bool, x: T)
    ensures x in Where(s, p) <==> x in s && p(x)
    decreases |s|
  {
    if s != [] {
      assert s == [s[0]] + s[1..];
      WhereMembership(s[1..], p, x);
    }
  }

  /** The same, for every row at once. */
  lemma WhereMembershipAll<T>(s: seq<T>, p: T -> bool)
    ensures forall x :: x in Where(s, p) <==> x in s && p(x)
  {
    forall x ensures x in Where(s, p) <==> x in s && p(x) {
      WhereMembership(s, p, x);
    }
  }

  /** Filtering distributes over concatenation of tables (a row appended at the end). */
  lemma {:induction false} WhereAppend<T>(s: seq<T>, t: seq<T>, p: T -> bool)
    ensures Where(s + t, p) == Where(s, p) + Where(t, p)
    decreases |s|
  {
    if s == [] {
      assert s + t == t;
    } else {
      assert (s + t)[0] == s[0];
      assert (s + t)[1..] == s[1..] + t;
      WhereAppend(s[1..], t, p);
    }
  }

  /** Two predicates that agree on every row select the same rows. */
  lemma {:induction false} WhereExt<T>(s: seq<T>, p: T -> bool, q: T -> bool)
    requires forall x :: p(x) == q(x)
    ensures Where(s, p) == Where(s, q)
    decreases |s|
  {
    if s != [] {
      WhereExt(s[1..], p, q);
    }
  }

  /** Chaining two filters is one filter on the conjunction. */
  lemma {:induction false} WhereThenWhere<T>(s: seq<T>, p: T -> bool, q: T -> bool, r: T -> bool)
    requires forall x :: r(x) == (p(x) && q(x))
    ensures Where(Where(s, p), q) == Where(s, r)
    decreases |s|
  {
    if s != [] {
      WhereThenWhere(s[1..], p, q, r);
      if p(s[0]) {
        var w := Where(s[1..], p);
        assert ([s[0]] + w)[0] == s[0];
        assert ([s[0]] + w)[1..] == w;
      }
    }
  }

  /** A filter that no row of the table satisfies selects nothing. */
  lemma WhereNone<T>(s: seq<T>, p: T -> bool)
    requires forall i :: 0 <= i < |s| ==> !p(s[i])
    ensures Where(s, p) == []
  {
    var r := Where(s, p);
    if r != [] {
      WhereMembership(s, p, r[0]);
    }
  }

  /** A filter that every row of the table satisfies selects the whole table. */
  lemma {:induction false} WhereAll<T>(s: seq<T>, p: T -> bool)
    requires forall i :: 0 <= i < |s| ==> p(s[i])
    ensures Where(s, p) == s
    decreases |s|
  {
    if s != [] {
      WhereAll(s[1..], p);
      assert s == [s[0]] + s[1..];
    }
  }
}
