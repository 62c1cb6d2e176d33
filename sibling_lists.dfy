/** Sibling lists of the forest and the promotion splice of the reorder
    (src/lib.rs:89-106, src/main.rs:89-106).

    All progenitors of one descendant are linked through `next_progenitors`,
    starting at the first progenitor. The walk over the list stops when the
    current sibling links to itself; the lib.rs walk also stops when the link
    is the descendant's own ID (`stop`). The list does not close back onto the
    first sibling. */
module SiblingLists {
  import opened Errors
  import opened HaloIds
  import opened Tables

  /** The loop test of the sibling walk, negated: `next == cur` or `next == stop`. */
  predicate Ends(next: U64, cur: U64, stop: Option<U64>) {
    next == cur || stop == Some(next)
  }

  /** The siblings visited by a walk from `x`, or `None` if a link cannot be
      read or the walk is longer than `fuel`. */
  function Chain(links: Table<U64>, x: U64, stop: Option<U64>, fuel: nat): (r: Option<seq<U64>>)
    ensures r.Some? ==> |r.value| >= 1 && r.value[0] == x
    ensures r.Some? ==> forall y :: y in r.value ==> Lookup(links, y).Ok?
    decreases fuel
  {
    if fuel == 0 then None
    else match Lookup(links, x)
      case Err(_) => None
      case Ok(next) =>
        if Ends(next, x, stop) then Some([x])
        else match Chain(links, next, stop, fuel - 1)
          case None => None
          case Some(rest) => Some([x] + rest)
  }

  /** `s` is a sibling list as stored in `links`: each element links to the next
      without ending the walk, and the last one ends it. */
  ghost predicate Linked(links: Table<U64>, s: seq<U64>, stop: Option<U64>) {
    && |s| >= 1
    && (forall k :: 0 <= k < |s| ==> Lookup(links, s[k]).Ok?)
    && (forall k :: 0 <= k < |s| - 1 ==> Lookup(links, s[k]) == Ok(s[k + 1]))
    && (forall k :: 0 <= k < |s| - 1 ==> !Ends(s[k + 1], s[k], stop))
    && Lookup(links, s[|s| - 1]).Ok?
    && Ends(Lookup(links, s[|s| - 1]).value, s[|s| - 1], stop)
  }

  ghost predicate Distinct(s: seq<U64>) {
    forall a, b :: 0 <= a < b < |s| ==> s[a] != s[b]
  }

  lemma {:induction false} ChainIsLinked(links: Table<U64>, x: U64, stop: Option<U64>, fuel: nat)
    requires Chain(links, x, stop, fuel).Some?
    ensures var s := Chain(links, x, stop, fuel).value;
      s[0] == x && |s| <= fuel && Linked(links, s, stop)
    decreases fuel
  {
    var next := Lookup(links, x).value;
    if !Ends(next, x, stop) {
      ChainIsLinked(links, next, stop, fuel - 1);
    }
  }

  lemma {:induction false} LinkedIsChain(links: Table<U64>, s: seq<U64>, stop: Option<U64>, fuel: nat)
    requires Linked(links, s, stop) && |s| <= fuel
    ensures Chain(links, s[0], stop, fuel) == Some(s)
    decreases |s|
  {
    if |s| == 1 {
      assert s == [s[0]];
    } else {
      assert Linked(links, s[1..], stop) by {
        forall k | 0 <= k < |s[1..]| - 1
          ensures Lookup(links, s[1..][k]) == Ok(s[1..][k + 1]) && !Ends(s[1..][k + 1], s[1..][k], stop)
        {
          assert s[1..][k] == s[k + 1] && s[1..][k + 1] == s[k + 2];
        }
      }
      LinkedIsChain(links, s[1..], stop, fuel - 1);
      assert Lookup(links, s[0]) == Ok(s[1]) && !Ends(s[1], s[0], stop);
      assert Chain(links, s[0], stop, fuel) == Some([s[0]] + s[1..]);
      assert s == [s[0]] + s[1..];
    }
  }

  /** The promotion of `cur` over the current first sibling `leader`: `cur`
      now links to `leader`, and `leader` takes over `cur`'s old successor,
      or links to itself when `cur` was the last sibling. No other link is
      written; in particular the sibling before `cur` is left alone. */
  function Splice(links: Table<U64>, leader: U64, cur: U64, succ: U64, curWasLast: bool): (r: Table<U64>)
    requires Lookup(links, leader).Ok? && Lookup(links, cur).Ok?
    ensures Shape(r) == Shape(links)
    ensures forall x :: x != leader && x != cur ==> Lookup(r, x) == Lookup(links, x)
  {
    var written := Store(links, cur, leader);
    Store(written, leader, if curWasLast then leader else succ)
  }

  /** Prepending a sibling that links to the head of a list. */
  lemma LinkedCons(links: Table<U64>, x: U64, s: seq<U64>, stop: Option<U64>)
    requires Linked(links, s, stop)
    requires Lookup(links, x) == Ok(s[0]) && !Ends(s[0], x, stop)
    ensures Linked(links, [x] + s, stop)
  {
    var t := [x] + s;
    forall k | 1 <= k < |t|
      ensures t[k] == s[k - 1]
    {
    }
  }

  /** The tail of a list from position `i` on is a list of its own, and stays
      one under any rewrite that leaves its own links alone. */
  lemma LinkedSuffix(links: Table<U64>, after: Table<U64>, s: seq<U64>, i: nat, stop: Option<U64>)
    requires Linked(links, s, stop) && i < |s|
    requires forall k :: i <= k < |s| ==> Lookup(after, s[k]) == Lookup(links, s[k])
    ensures Linked(after, s[i..], stop)
  {
    var t := s[i..];
    forall k | 0 <= k < |t|
      ensures t[k] == s[i + k]
    {
    }
    assert Lookup(after, t[|t| - 1]) == Lookup(links, s[|s| - 1]);
  }

  /** The three links a splice can change, and all others unchanged. */
  lemma SpliceLinks(links: Table<U64>, leader: U64, cur: U64, succ: U64, curWasLast: bool)
    requires Lookup(links, leader).Ok? && Lookup(links, cur).Ok? && leader != cur
    ensures var after := Splice(links, leader, cur, succ, curWasLast);
      && Lookup(after, cur) == Ok(leader)
      && Lookup(after, leader) == Ok(if curWasLast then leader else succ)
      && forall x :: x != leader && x != cur ==> Lookup(after, x) == Lookup(links, x)
  {
  }

  /** Promoting the sibling at position `j` of a well-formed list gives the list
      `cur, leader` followed by what came after `cur`; the siblings strictly
      between `leader` and `cur` are no longer on it, and the one just before
      `cur` still links to `cur`. */
  lemma {:induction false} SpliceRelinks(links: Table<U64>, s: seq<U64>, j: nat, stop: Option<U64>)
    requires Linked(links, s, stop) && Distinct(s) && stop != Some(s[0])
    requires 1 <= j < |s|
    ensures var succ := Lookup(links, s[j]).value;
      var after := Splice(links, s[0], s[j], succ, Ends(succ, s[j], stop));
      && Linked(after, [s[j], s[0]] + s[j + 1..], stop)
      && (j > 1 ==> Lookup(after, s[j - 1]) == Ok(s[j]))
  {
    var leader, cur := s[0], s[j];
    var succ := Lookup(links, cur).value;
    var last := Ends(succ, cur, stop);
    var after := Splice(links, leader, cur, succ, last);
    SpliceLinks(links, leader, cur, succ, last);
    var tail := s[j + 1..];
    var rest: seq<U64>;
    if j + 1 < |s| {
      assert succ == s[j + 1] && !last;
      forall k | j + 1 <= k < |s|
        ensures Lookup(after, s[k]) == Lookup(links, s[k])
      {
        assert s[k] != leader && s[k] != cur;
      }
      LinkedSuffix(links, after, s, j + 1, stop);
      LinkedCons(after, leader, tail, stop);
      rest := [leader] + tail;
    } else {
      assert last && tail == [];
      rest := [leader];
      assert Linked(after, rest, stop);
    }
    LinkedCons(after, cur, rest, stop);
    assert [cur] + rest == [cur, leader] + tail;
    if j > 1 {
      assert Lookup(links, s[j - 1]) == Ok(cur);
      assert s[j - 1] != leader && s[j - 1] != cur;
    }
  }

  /** Promotion as the walk sees it. Promoting the sibling right after the
      leader keeps every sibling on the list, in the old order except that the
      two swap; promoting a later sibling drops every sibling in between, so
      the sibling set survives exactly when the promoted sibling was adjacent. */
  lemma {:induction false} PromoteOnChain(links: Table<U64>, leader: U64, stop: Option<U64>, fuel: nat, j: nat)
    requires Chain(links, leader, stop, fuel).Some?
    requires Distinct(Chain(links, leader, stop, fuel).value)
    requires 1 <= j < |Chain(links, leader, stop, fuel).value|
    requires stop != Some(leader)
    ensures var s := Chain(links, leader, stop, fuel).value;
      var succ := Lookup(links, s[j]).value;
      var after := Splice(links, leader, s[j], succ, Ends(succ, s[j], stop));
      var t := [s[j], leader] + s[j + 1..];
      && Chain(after, s[j], stop, fuel) == Some(t)
      && (multiset(t) == multiset(s) <==> j == 1)
      && (forall k :: 1 <= k < j ==> s[k] !in t)
      && (j > 1 ==> Lookup(after, s[j - 1]) == Ok(s[j]))
  {
    var s := Chain(links, leader, stop, fuel).value;
    ChainIsLinked(links, leader, stop, fuel);
    SpliceRelinks(links, s, j, stop);
    var succ := Lookup(links, s[j]).value;
    var after := Splice(links, leader, s[j], succ, Ends(succ, s[j], stop));
    LinkedIsChain(after, [s[j], leader] + s[j + 1..], stop, fuel);
    PromotedOrder(s, j);
  }

  /** On sequences: moving `s[j]` to the front and cutting out `s[1..j]`
      permutes `s` exactly when nothing is cut out. */
  lemma PromotedOrder(s: seq<U64>, j: nat)
    requires Distinct(s) && 1 <= j < |s|
    ensures var t := [s[j], s[0]] + s[j + 1..];
      && (multiset(t) == multiset(s) <==> j == 1)
      && (forall k :: 1 <= k < j ==> s[k] !in t)
  {
    var t := [s[j], s[0]] + s[j + 1..];
    forall k | 1 <= k < j
      ensures s[k] !in t
    {
      assert s[k] != s[j] && s[k] != s[0];
      forall m | j + 1 <= m < |s| ensures s[k] != s[m] { }
    }
    if j == 1 {
      assert s == [s[0], s[1]] + s[2..];
    } else {
      assert s[1] in multiset(s) && s[1] !in multiset(t);
    }
  }
}
