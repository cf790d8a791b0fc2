/** Vocabulary shared by every part of the records application model:
    optional values, HTTP statuses and the accept/reject outcome of a
    request check. */
module Base {

  datatype Option<+T> = None | Some(value: T)

  /** The HTTP statuses the route handlers answer with. */
  datatype Status = Ok | Created | BadRequest | Unauthorized | Forbidden | NotFound | Conflict | ServerError {
    function Code(): int {
      match this
      case Ok => 200
      case Created => 201
      case BadRequest => 400
      case Unauthorized => 401
      case Forbidden => 403
      case NotFound => 404
      case Conflict => 409
      case ServerError => 500
    }

    predicate IsError() {
      !(Ok? || Created?)
    }
  }

  /** What a request check decides: go on with a value, or answer with an
      error status and the message the handler sends. */
  datatype Outcome<+T> = Accept(value: T) | Reject(status: Status, message: string)

  function Min(a: int, b: int): int {
    if a <= b then a else b
  }

  /** `s.filter(p)`: the elements of `s` that satisfy `p`, in their order. */
  function Filter<T(==,!new)>(s: seq<T>, p: T -> bool): (r: seq<T>)
    ensures |r| <= |s|
    ensures forall x :: x in r <==> x in s && p(x)
    ensures multiset(r) <= multiset(s)
  {
    if |s| == 0 then []
    else
      assert s == [s[0]] + s[1..];
      (if p(s[0]) then [s[0]] else []) + Filter(s[1..], p)
  }

  /** Two tests that agree on every element keep the same elements. */
  lemma {:induction false} FilterSame<T(!new)>(s: seq<T>, p: T -> bool, q: T -> bool)
    requires forall i | 0 <= i < |s| :: p(s[i]) == q(s[i])
    ensures Filter(s, p) == Filter(s, q)
  {
    if |s| > 0 {
      FilterSame(s[1..], p, q);
    }
  }

  /** A test and its negation split the sequence: together they keep every
      element once. */
  lemma {:induction false} FilterComplement<T(!new)>(s: seq<T>, p: T -> bool, q: T -> bool)
    requires forall i | 0 <= i < |s| :: q(s[i]) == !p(s[i])
    ensures |Filter(s, p)| + |Filter(s, q)| == |s|
  {
    if |s| > 0 {
      FilterComplement(s[1..], p, q);
    }
  }

  /** Two tests that no element passes both keep, together, no more
      elements than there are. */
  lemma {:induction false} FilterDisjoint<T(!new)>(s: seq<T>, p: T -> bool, q: T -> bool)
    requires forall i | 0 <= i < |s| :: !(p(s[i]) && q(s[i]))
    ensures |Filter(s, p)| + |Filter(s, q)| <= |s|
  {
    if |s| > 0 {
      FilterDisjoint(s[1..], p, q);
    }
  }

  /** A test every element passes keeps the sequence whole. */
  lemma {:induction false} FilterAll<T(!new)>(s: seq<T>, p: T -> bool)
    requires forall i | 0 <= i < |s| :: p(s[i])
    ensures Filter(s, p) == s
  {
    if |s| > 0 {
      FilterAll(s[1..], p);
      assert [s[0]] + s[1..] == s;
    }
  }

  /** The list with `k` put in at position `i`: what it holds at each
      position, and which elements it holds. */
  lemma InsertAt<T>(s: seq<T>, i: int, k: T)
    requires 0 <= i <= |s|
    ensures var r := s[..i] + [k] + s[i..];
      && |r| == |s| + 1
      && (forall j | 0 <= j < |r| :: r[j] == if j < i then s[j] else if j == i then k else s[j - 1])
      && (forall x :: x in r <==> x in s || x == k)
  {
    assert s == s[..i] + s[i..];
  }

  /** Where an element of a list occurs in it. */
  lemma PositionIn<T>(s: seq<T>, x: T) returns (i: int)
    requires x in multiset(s)
    ensures 0 <= i < |s| && s[i] == x
  {
    i :| 0 <= i < |s| && s[i] == x;
  }

  /** Two lists with the same elements still have the same elements
      once the first of one and an occurrence of it in the other are taken
      out. */
  lemma PermutationStep<T>(a: seq<T>, b: seq<T>, i: int)
    requires multiset(a) == multiset(b)
    requires 0 < |a| && 0 <= i < |b| && b[i] == a[0]
    ensures multiset(a[1..]) == multiset(b[..i] + b[i + 1..])
  {
    assert a == [a[0]] + a[1..];
    assert multiset(a) == multiset{a[0]} + multiset(a[1..]);
    assert b == b[..i] + [b[i]] + b[i + 1..];
    assert multiset(b) == multiset(b[..i]) + multiset{b[i]} + multiset(b[i + 1..]);
    assert multiset(b[..i] + b[i + 1..]) == multiset(b[..i]) + multiset(b[i + 1..]);
    assert multiset(a[1..]) == multiset(a) - multiset{a[0]};
    assert multiset(b[..i] + b[i + 1..]) == multiset(b) - multiset{b[i]};
  }

  /** Putting back the first element in front of a list that holds the
      rest and one more element holds all of them. */
  lemma ConsRestored<T>(s: seq<T>, rest: seq<T>, o: T)
    requires |s| > 0 && multiset(rest) == multiset(s[1..]) + multiset{o}
    ensures multiset([s[0]] + rest) == multiset(s) + multiset{o}
  {
    assert s == [s[0]] + s[1..];
  }

  /** A list without repetitions has as many elements as its set. */
  lemma {:induction false} DistinctCardinality<T>(s: seq<T>)
    requires forall i, j | 0 <= i < j < |s| :: s[i] != s[j]
    ensures |set i | 0 <= i < |s| :: s[i]| == |s|
  {
    if |s| > 0 {
      var rest := s[1..];
      DistinctCardinality(rest);
      var all := set i | 0 <= i < |s| :: s[i];
      var tail := set i | 0 <= i < |rest| :: rest[i];
      assert all == tail + {s[0]} by {
        forall x | x in all ensures x in tail + {s[0]} {
          var i :| 0 <= i < |s| && s[i] == x;
          if i > 0 {
            assert rest[i - 1] == x;
          }
        }
        forall x | x in tail ensures x in all {
          var i :| 0 <= i < |rest| && rest[i] == x;
          assert s[i + 1] == x;
        }
      }
      assert s[0] !in tail;
    }
  }

  /** The list without its element at `i`: when `i` is not the first
      position it starts like `s` and goes on as the tail of `s` without
      that element; otherwise it is the tail. */
  lemma RemoveAtShape<T>(s: seq<T>, i: int)
    requires 0 <= i < |s|
    ensures i == 0 ==> s[..i] + s[i + 1..] == s[1..]
    ensures i > 0 ==> (s[..i] + s[i + 1..])[0] == s[0]
    ensures i > 0 ==> (s[..i] + s[i + 1..])[1..] == s[1..][..i - 1] + s[1..][i..]
  {
    if i > 0 {
      assert s[1..][..i - 1] + s[1..][i..] == (s[..i] + s[i + 1..])[1..];
    }
  }
}
