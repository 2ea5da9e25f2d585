/** The Market: an ordered sequence of cards, and the list primitives the moves use
    (JavaScript's `indexOf`, `filter`, `splice` and the destructuring swap). */
module Market {

  import opened Cards

  /** No card occurs twice. */
  predicate Distinct(s: seq<Card>) {
    forall i, j :: 0 <= i < j < |s| ==> s[i] != s[j]
  }

  /** `Array.prototype.indexOf`: the first position holding `x`, or -1 when there is none. */
  function IndexOf(s: seq<Card>, x: Card): (i: int)
    ensures -1 <= i < |s|
    ensures i == -1 <==> x !in s
    ensures 0 <= i ==> s[i] == x && x !in s[..i]
  {
    if s == [] then -1
    else if s[0] == x then 0
    else
      var j := IndexOf(s[1..], x);
      if j == -1 then -1 else j + 1
  }

  /** In a market without repeats, `indexOf` finds every card at its own position. */
  lemma IndexOfDistinct(s: seq<Card>, k: nat)
    requires Distinct(s) && k < |s|
    ensures IndexOf(s, s[k]) == k
  {
  }

  /** A card that its prefix does not hold is found just after that prefix. */
  lemma IndexOfAfterPrefix(pre: seq<Card>, x: Card, post: seq<Card>)
    requires x !in pre
    ensures IndexOf(pre + [x] + post, x) == |pre|
  {
    var s := pre + [x] + post;
    assert s[|pre|] == x;
    assert s[..|pre|] == pre;
  }

  /** `s.filter(x => !sel.includes(x))`. */
  function Without(s: seq<Card>, sel: seq<Card>): (r: seq<Card>)
    ensures |r| <= |s|
  {
    if s == [] then []
    else (if s[0] in sel then [] else [s[0]]) + Without(s[1..], sel)
  }

  /** The survivors of the filter are exactly the unselected elements. */
  lemma {:induction false} WithoutMembers(s: seq<Card>, sel: seq<Card>)
    ensures forall x :: x in Without(s, sel) <==> x in s && x !in sel
  {
    if s != [] {
      WithoutMembers(s[1..], sel);
      assert s == [s[0]] + s[1..];
    }
  }

  /** Filtering distributes over concatenation, so survivors keep their relative order. */
  lemma {:induction false} WithoutAppend(a: seq<Card>, b: seq<Card>, sel: seq<Card>)
    ensures Without(a + b, sel) == Without(a, sel) + Without(b, sel)
  {
    if a == [] {
      assert a + b == b;
    } else {
      assert (a + b)[1..] == a[1..] + b;
      WithoutAppend(a[1..], b, sel);
    }
  }

  lemma WithoutThreeParts(s: seq<Card>, sel: seq<Card>, i: nat, j: nat)
    requires i <= j <= |s|
    ensures Without(s, sel) == Without(s[..i], sel) + Without(s[i..j], sel) + Without(s[j..], sel)
  {
    assert s == s[..i] + s[i..j] + s[j..];
    WithoutAppend(s[..i] + s[i..j], s[j..], sel);
    WithoutAppend(s[..i], s[i..j], sel);
  }

  /** Filtering keeps a sequence none of whose elements is selected. */
  lemma {:induction false} WithoutNoneSelected(s: seq<Card>, sel: seq<Card>)
    requires forall i :: 0 <= i < |s| ==> s[i] !in sel
    ensures Without(s, sel) == s
  {
    if s != [] {
      WithoutNoneSelected(s[1..], sel);
      assert s == [s[0]] + s[1..];
    }
  }

  /** Filtering out exactly the elements at positions i .. j - 1 cuts that block out. */
  lemma WithoutCutsBlock(s: seq<Card>, sel: seq<Card>, i: nat, j: nat)
    requires i <= j <= |s|
    requires forall k :: i <= k < j ==> s[k] in sel
    requires forall k :: 0 <= k < |s| && (k < i || j <= k) ==> s[k] !in sel
    ensures Without(s, sel) == s[..i] + s[j..]
  {
    WithoutThreeParts(s, sel, i, j);
    assert Without(s[i..j], sel) == [] by { WithoutBlockGone(s, sel, i, j); }
    assert Without(s[..i], sel) == s[..i] by { WithoutKeepsPrefix(s, sel, i); }
    assert Without(s[j..], sel) == s[j..] by { WithoutKeepsSuffix(s, sel, j); }
    assert s[..i] + [] == s[..i];
  }

  /** Filtering one card out of a sequence without repeats takes out just its position. */
  lemma WithoutDropsOne(s: seq<Card>, x: Card)
    requires Distinct(s) && x in s
    ensures Without(s, [x]) == RemoveAt(s, IndexOf(s, x))
  {
    var i := IndexOf(s, x);
    forall k | 0 <= k < |s| && (k < i || i + 1 <= k) ensures s[k] !in [x] {
      assert s[k] != s[i];
    }
    WithoutCutsBlock(s, [x], i, i + 1);
  }

  lemma WithoutBlockGone(s: seq<Card>, sel: seq<Card>, i: nat, j: nat)
    requires i <= j <= |s|
    requires forall k :: i <= k < j ==> s[k] in sel
    ensures Without(s[i..j], sel) == []
  {
    var block := s[i..j];
    assert forall k :: 0 <= k < |block| ==> block[k] == s[i + k];
    WithoutAllSelected(block, sel);
  }

  lemma WithoutKeepsPrefix(s: seq<Card>, sel: seq<Card>, i: nat)
    requires i <= |s|
    requires forall k :: 0 <= k < i ==> s[k] !in sel
    ensures Without(s[..i], sel) == s[..i]
  {
    var before := s[..i];
    assert forall k :: 0 <= k < |before| ==> before[k] == s[k];
    WithoutNoneSelected(before, sel);
  }

  lemma WithoutKeepsSuffix(s: seq<Card>, sel: seq<Card>, j: nat)
    requires j <= |s|
    requires forall k :: j <= k < |s| ==> s[k] !in sel
    ensures Without(s[j..], sel) == s[j..]
  {
    var after := s[j..];
    assert forall k :: 0 <= k < |after| ==> after[k] == s[j + k];
    WithoutNoneSelected(after, sel);
  }

  /** Filtering a sequence without repeats leaves one without repeats. */
  lemma {:induction false} WithoutKeepsDistinct(s: seq<Card>, sel: seq<Card>)
    requires Distinct(s)
    ensures Distinct(Without(s, sel))
  {
    if s != [] {
      assert Distinct(s[1..]);
      WithoutKeepsDistinct(s[1..], sel);
      var rest := Without(s[1..], sel);
      WithoutMembers(s[1..], sel);
      assert s[0] !in s[1..];
      assert s[0] !in rest;
      var r := Without(s, sel);
      if s[0] !in sel {
        forall a, b | 0 <= a < b < |r| ensures r[a] != r[b] {
          if a == 0 {
            assert r[b] == rest[b - 1];
          } else {
            assert r[a] == rest[a - 1] && r[b] == rest[b - 1];
          }
        }
      }
    }
  }

  /** Filtering empties a sequence all of whose elements are selected. */
  lemma WithoutAllSelected(s: seq<Card>, sel: seq<Card>)
    requires forall i :: 0 <= i < |s| ==> s[i] in sel
    ensures Without(s, sel) == []
  {
  }

  /** `s.filter(c => keep(c))` for the suit test of Flea Hop: the cards with field `suit`. */
  function SameSuit(s: seq<Card>, suit: string): (r: seq<Card>)
    ensures |r| <= |s|
    ensures forall c :: c in r <==> c in s && c.suit == suit
  {
    if s == [] then []
    else (if s[0].suit == suit then [s[0]] else []) + SameSuit(s[1..], suit)
  }

  lemma {:induction false} SameSuitAppend(a: seq<Card>, b: seq<Card>, suit: string)
    ensures SameSuit(a + b, suit) == SameSuit(a, suit) + SameSuit(b, suit)
  {
    if a == [] {
      assert a + b == b;
    } else {
      assert (a + b)[1..] == a[1..] + b;
      SameSuitAppend(a[1..], b, suit);
    }
  }

  /** The first card of a suit subsequence is the first card of that suit in the market. */
  lemma {:induction false} SameSuitHead(s: seq<Card>, suit: string) returns (j: nat)
    requires SameSuit(s, suit) != []
    ensures j < |s| && s[j] == SameSuit(s, suit)[0] && s[j].suit == suit
    ensures forall k :: 0 <= k < j ==> s[k].suit != suit
  {
    if s[0].suit == suit {
      j := 0;
    } else {
      var j' := SameSuitHead(s[1..], suit);
      j := j' + 1;
    }
  }

  /** The first card of suit `suit` after position `from`, and no card of that suit in
      between. */
  lemma SuitHeadAfter(s: seq<Card>, from: nat, suit: string) returns (to: nat)
    requires from < |s| && SameSuit(s[from + 1..], suit) != []
    ensures from < to < |s| && s[to] == SameSuit(s[from + 1..], suit)[0]
    ensures forall k :: from < k < to ==> s[k].suit != suit
  {
    var b := s[from + 1..];
    var j := SameSuitHead(b, suit);
    to := from + 1 + j;
    forall k | from < k < to ensures s[k].suit != suit {
      assert s[k] == b[k - from - 1];
    }
  }

  /** The first card of suit `suit` before position `from`, and no card of that suit
      ahead of it. */
  lemma SuitHeadBefore(s: seq<Card>, from: nat, suit: string) returns (to: nat)
    requires from <= |s| && SameSuit(s[..from], suit) != []
    ensures to < from && s[to] == SameSuit(s[..from], suit)[0]
    ensures forall k :: 0 <= k < to ==> s[k].suit != suit
  {
    var a := s[..from];
    to := SameSuitHead(a, suit);
    forall k | 0 <= k < to ensures s[k].suit != suit {
      assert s[k] == a[k];
    }
  }

  /** When the suit subsequence of a suffix is empty, no card of the suffix has that suit. */
  lemma NoSuitAfter(s: seq<Card>, from: nat, suit: string)
    requires from < |s| && SameSuit(s[from + 1..], suit) == []
    ensures forall k :: from < k < |s| ==> s[k].suit != suit
  {
    var b := s[from + 1..];
    forall k | from < k < |s| ensures s[k].suit != suit {
      assert s[k] == b[k - from - 1];
      assert s[k] !in SameSuit(b, suit);
    }
  }

  /** A sequence is the part before position `i`, the element there, and the part after. */
  lemma SplitAt(s: seq<Card>, i: nat)
    requires i < |s|
    ensures s == s[..i] + [s[i]] + s[i + 1..]
  {
  }

  /** Cutting a block out of a sequence loses no element: the rest and the block together
      hold what the sequence held. */
  lemma CutBlockCount(s: seq<Card>, p: nat, block: seq<Card>, rest: seq<Card>)
    requires p + |block| <= |s| && s[p..p + |block|] == block
    requires rest == s[..p] + s[p + |block|..]
    ensures multiset(s) == multiset(rest) + multiset(block)
  {
    assert s == s[..p] + block + s[p + |block|..];
  }

  /** `splice(i, 1)`: the sequence with position `i` taken out. */
  function RemoveAt(s: seq<Card>, i: nat): (r: seq<Card>)
    requires i < |s|
    ensures |r| == |s| - 1
    ensures forall k :: 0 <= k < i ==> r[k] == s[k]
    ensures forall k :: i <= k < |r| ==> r[k] == s[k + 1]
  {
    s[..i] + s[i + 1..]
  }

  /** `splice(i, 0, x)`: the sequence with `x` placed at position `i`. */
  function InsertAt(s: seq<Card>, i: nat, x: Card): (r: seq<Card>)
    requires i <= |s|
    ensures |r| == |s| + 1 && r[i] == x
    ensures forall k :: 0 <= k < i ==> r[k] == s[k]
    ensures forall k :: i < k < |r| ==> r[k] == s[k - 1]
  {
    s[..i] + [x] + s[i..]
  }

  /** Taking back out what was just inserted gives the original sequence. */
  lemma RemoveInserted(s: seq<Card>, i: nat, x: Card)
    requires i <= |s|
    ensures RemoveAt(InsertAt(s, i, x), i) == s
  {
  }

  /** The destructuring swap `[s[i], s[j]] = [s[j], s[i]]`. */
  function Swapped(s: seq<Card>, i: nat, j: nat): (r: seq<Card>)
    requires i < |s| && j < |s|
    ensures |r| == |s| && r[i] == s[j] && r[j] == s[i]
    ensures forall k :: 0 <= k < |s| && k != i && k != j ==> r[k] == s[k]
    ensures multiset(r) == multiset(s)
  {
    s[i := s[j]][j := s[i]]
  }

  lemma SwappedDistinct(s: seq<Card>, i: nat, j: nat)
    requires i < |s| && j < |s| && Distinct(s)
    ensures Distinct(Swapped(s, i, j))
  {
    var r := Swapped(s, i, j);
    forall a, b | 0 <= a < b < |r| ensures r[a] != r[b] {
      var a' := if a == i then j else if a == j then i else a;
      var b' := if b == i then j else if b == j then i else b;
      assert r[a] == s[a'] && r[b] == s[b'] && a' != b';
    }
  }
}
