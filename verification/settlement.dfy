/** `processBetsForWinner` of server/index.js: when a match is decided, every
    registered user who backed the winner is credited a share of the pool that
    was staked on the loser. Stakes were already taken at placement, are not
    returned, and the books are left as they are. */
module Settlement {
  import opened Options
  import opened Ledger

  /** `Math.floor(n / d)`. Dafny's `/` is Euclidean, which differs from the
      floor for a negative divisor, so that case is written out. */
  function FloorDiv(n: int, d: int): (q: int)
    requires d != 0
    ensures d > 0 ==> q * d <= n < q * d + d
    ensures d < 0 ==> q * d + d < n <= q * d
  {
    if d > 0 then n / d else (-n) / (-d)
  }

  /** What a backer with stake `a` gains: the floor of `L * a / W`, where `L`
      is the pool on the loser and `W` the pool on the winner. An empty
      winner pool pays nothing. */
  function Share(L: int, a: int, W: int): int {
    if W == 0 then 0 else FloorDiv(L * a, W)
  }

  /** `activeBets[player] || {}`. */
  function BookOn(bets: map<string, Book>, player: string): Book {
    if player in bets then bets[player] else []
  }

  /** What user `u` gains from a winner book: its share if it has a stake. */
  function Gain(book: Book, u: string, L: int, W: int): int {
    match StakeOf(book, u)
    case Some(a) => Share(L, a, W)
    case None => 0
  }

  /** The `forEach` over the winner's book (lines 71-76): each entry whose user
      is registered adds that user's share to the user's balance. */
  function Credit(users: map<string, Account>, book: Book, L: int, W: int): (r: map<string, Account>)
    requires Keyed(book)
    ensures r.Keys == users.Keys
    ensures forall u :: u in users ==> r[u].password == users[u].password
    ensures forall u :: u in users ==> r[u].bottles == users[u].bottles + Gain(book, u, L, W)
  {
    if |book| == 0 then users
    else
      var st := book[0];
      var next := if st.user in users
                  then users[st.user := users[st.user].(bottles := users[st.user].bottles + Share(L, st.amount, W))]
                  else users;
      Credit(next, book[1..], L, W)
  }

  /** `processBetsForWinner(winner, loser)` on the balances. Only registered
      backers of the winner change, each by exactly its share; a pool that sums
      to zero, or a winner nobody backed, changes nothing. */
  function Settle(users: map<string, Account>, bets: map<string, Book>, winner: string, loser: string): (r: map<string, Account>)
    requires Keyed(BookOn(bets, winner))
    ensures r.Keys == users.Keys
    ensures forall u :: u in users && u !in Users(BookOn(bets, winner)) ==> r[u] == users[u]
    ensures Sum(BookOn(bets, winner)) + Sum(BookOn(bets, loser)) == 0 ==> r == users
    ensures Sum(BookOn(bets, winner)) + Sum(BookOn(bets, loser)) != 0 ==>
      forall u :: u in users && StakeOf(BookOn(bets, winner), u).Some? ==>
        r[u] == users[u].(bottles := users[u].bottles
                            + Share(Sum(BookOn(bets, loser)), StakeOf(BookOn(bets, winner), u).value, Sum(BookOn(bets, winner))))
    ensures Users(BookOn(bets, winner)) == {} ==> r == users
  {
    var wb := BookOn(bets, winner);
    var W := Sum(wb);
    var L := Sum(BookOn(bets, loser));
    if W + L == 0 then users
    else
      var r := Credit(users, wb, L, W);
      assert Users(wb) == {} ==> r == users by {
        if Users(wb) == {} {
          forall u | u in users ensures r[u] == users[u] {
            assert StakeOf(wb, u).None?;
          }
        }
      }
      r
  }

  /** Sum of the shares of every entry of a winner book. */
  function TotalShares(book: Book, L: int, W: int): int {
    if |book| == 0 then 0 else Share(L, book[0].amount, W) + TotalShares(book[1..], L, W)
  }

  /** Sum over the entries of a book of how much each entry's user gained
      between two balance maps. */
  function Gained(before: map<string, Account>, after: map<string, Account>, book: Book): int
    requires Users(book) <= before.Keys && Users(book) <= after.Keys
  {
    if |book| == 0 then 0
    else after[book[0].user].bottles - before[book[0].user].bottles + Gained(before, after, book[1..])
  }

  /** Cancelling a positive factor on both sides of an inequality. */
  lemma CancelPositive(x: int, y: int, c: int)
    requires c > 0
    ensures x * c <= y * c ==> x <= y
    ensures x * c < y * c ==> x < y
  {
    if x > y {
      assert x * c - y * c == (x - y) * c;
    }
    if x >= y {
      assert x * c - y * c == (x - y) * c;
    }
  }

  lemma Distribute(x: int, y: int, c: int)
    ensures (x + y) * c == x * c + y * c
  {
  }

  lemma DistributeLeft(c: int, x: int, y: int)
    ensures c * (x + y) == c * x + c * y
  {
  }

  /** One entry's share, scaled back by `W`, brackets `L * a`. */
  lemma ShareBracket(L: int, a: int, W: int)
    requires W != 0
    ensures W > 0 ==> Share(L, a, W) * W <= L * a < Share(L, a, W) * W + W
    ensures W < 0 ==> Share(L, a, W) * W + W < L * a <= Share(L, a, W) * W
  {
  }

  /** Adding one entry to a bracketed sum keeps it bracketed (positive `W`). */
  lemma StepPositive(s: int, t: int, W: int, x: int, y: int, n: nat)
    requires W > 0
    requires s * W <= x < s * W + W
    requires t * W <= y && y + n <= t * W + n * W
    ensures (s + t) * W <= x + y
    ensures x + y + (n + 1) <= (s + t) * W + (n + 1) * W
  {
    Distribute(s, t, W);
    Distribute(n, 1, W);
  }

  /** Adding one entry to a bracketed sum keeps it bracketed (negative `W`). */
  lemma StepNegative(s: int, t: int, W: int, x: int, y: int, n: nat)
    requires W < 0
    requires s * W + W < x <= s * W
    requires y <= t * W && t * W + n * W + n <= y
    ensures x + y <= (s + t) * W
    ensures (s + t) * W + (n + 1) * W + (n + 1) <= x + y
  {
    Distribute(s, t, W);
    Distribute(n, 1, W);
  }

  /** Flooring loses less than one unit per entry: for a positive `W` the
      shares of a book, scaled back by `W`, bracket `L` times the book's pool. */
  lemma {:induction false} SharesBracketPositive(b: Book, L: int, W: int)
    requires W > 0
    ensures TotalShares(b, L, W) * W <= L * Sum(b)
    ensures L * Sum(b) + |b| <= TotalShares(b, L, W) * W + |b| * W
  {
    if |b| == 0 {
      assert TotalShares(b, L, W) == 0 && Sum(b) == 0;
    } else {
      var a := b[0].amount;
      var s := Share(L, a, W);
      var t := TotalShares(b[1..], L, W);
      var n := |b[1..]|;
      var rest := Sum(b[1..]);
      var y := L * rest;
      var T := TotalShares(b, L, W);
      var S := Sum(b);
      SharesBracketPositive(b[1..], L, W);
      assert t * W <= y && y + n <= t * W + n * W;
      ShareBracket(L, a, W);
      assert s * W <= L * a < s * W + W;
      assert T == s + t && S == a + rest;
      assert L * S == L * (a + rest);
      DistributeLeft(L, a, rest);
      StepPositive(s, t, W, L * a, y, n);
      assert T * W <= L * S && L * S + |b| <= T * W + |b| * W;
    }
  }

  /** The same bracket for a negative `W` (only reachable with negative stakes). */
  lemma {:induction false} SharesBracketNegative(b: Book, L: int, W: int)
    requires W < 0
    ensures L * Sum(b) <= TotalShares(b, L, W) * W
    ensures TotalShares(b, L, W) * W + |b| * W + |b| <= L * Sum(b)
  {
    if |b| == 0 {
      assert TotalShares(b, L, W) == 0 && Sum(b) == 0;
    } else {
      var a := b[0].amount;
      var s := Share(L, a, W);
      var t := TotalShares(b[1..], L, W);
      var n := |b[1..]|;
      var rest := Sum(b[1..]);
      var y := L * rest;
      var T := TotalShares(b, L, W);
      var S := Sum(b);
      SharesBracketNegative(b[1..], L, W);
      assert y <= t * W && t * W + n * W + n <= y;
      ShareBracket(L, a, W);
      assert s * W + W < L * a <= s * W;
      assert T == s + t && S == a + rest;
      assert L * S == L * (a + rest);
      DistributeLeft(L, a, rest);
      StepNegative(s, t, W, L * a, y, n);
      assert L * S <= T * W && T * W + |b| * W + |b| <= L * S;
    }
  }

  /** Every registered entry's user gained exactly its share: the gains over the
      book add up to the shares over the book. */
  lemma {:induction false} GainedIsShares(before: map<string, Account>, after: map<string, Account>, b: Book, L: int, W: int)
    requires Users(b) <= before.Keys && Users(b) <= after.Keys
    requires forall i :: 0 <= i < |b| ==>
      b[i].user in before && b[i].user in after &&
      after[b[i].user].bottles == before[b[i].user].bottles + Share(L, b[i].amount, W)
    ensures Gained(before, after, b) == TotalShares(b, L, W)
  {
    if |b| > 0 {
      forall i | 0 <= i < |b[1..]|
        ensures b[1..][i].user in before && b[1..][i].user in after &&
          after[b[1..][i].user].bottles == before[b[1..][i].user].bottles + Share(L, b[1..][i].amount, W)
      {
        assert b[1..][i] == b[i + 1];
      }
      GainedIsShares(before, after, b[1..], L, W);
    }
  }

  /** From the bracket over a whole winner book (pool `W`) to the bound. */
  lemma BoundPositive(T: int, L: int, W: int, n: nat)
    requires W > 0
    requires T * W <= L * W && L * W + n <= T * W + n * W
    ensures L - n <= T <= L
    ensures n > 0 ==> L - n < T
  {
    CancelPositive(T, L, W);
    Distribute(T, n, W);
    if n > 0 {
      CancelPositive(L, T + n, W);
    }
  }

  lemma BoundNegative(T: int, L: int, W: int, n: nat)
    requires W < 0
    requires L * W <= T * W && T * W + n * W + n <= L * W
    ensures L - n <= T <= L
    ensures n > 0 ==> L - n < T
  {
    var V := -W;
    assert T * V <= L * V;
    CancelPositive(T, L, V);
    Distribute(T, n, W);
    if n > 0 {
      assert L * V < (T + n) * V;
      CancelPositive(L, T + n, V);
    }
  }

  /** Settlement pays out at most the loser's pool `L`, and loses less than one
      bottle per winning bettor to flooring: `L - n < credited <= L`. */
  lemma SettleBounds(users: map<string, Account>, bets: map<string, Book>, winner: string, loser: string)
    requires Keyed(BookOn(bets, winner))
    requires Users(BookOn(bets, winner)) <= users.Keys
    requires Sum(BookOn(bets, winner)) != 0
    requires Sum(BookOn(bets, winner)) + Sum(BookOn(bets, loser)) != 0
    ensures Sum(BookOn(bets, loser)) - |BookOn(bets, winner)|
              < Gained(users, Settle(users, bets, winner, loser), BookOn(bets, winner))
              <= Sum(BookOn(bets, loser))
  {
    var wb := BookOn(bets, winner);
    var W := Sum(wb);
    var L := Sum(BookOn(bets, loser));
    var r := Settle(users, bets, winner, loser);
    var n := |wb|;
    assert n > 0;
    forall i | 0 <= i < n
      ensures wb[i].user in users && wb[i].user in r &&
        r[wb[i].user].bottles == users[wb[i].user].bottles + Share(L, wb[i].amount, W)
    {
      KeyedLookup(wb, i);
      UsersMember(wb, wb[i].user);
    }
    GainedIsShares(users, r, wb, L, W);
    var T := TotalShares(wb, L, W);
    assert Gained(users, r, wb) == T;
    if W > 0 {
      SharesBracketPositive(wb, L, W);
      BoundPositive(T, L, W, n);
    } else {
      SharesBracketNegative(wb, L, W);
      BoundNegative(T, L, W, n);
    }
  }

  /** Backers with 10 and 5 on the winner, 20 on the loser: the backers are
      credited 13 and 6, their shares of the losing pool, and the stakes
      themselves are not paid back. One bottle of the 20 is lost to flooring. */
  lemma TwoBackersExample()
    ensures var users := map["a" := Account("p", 0), "b" := Account("q", 0), "c" := Account("r", 0)];
      var bets := map["W" := [Stake("a", 10), Stake("b", 5)], "L" := [Stake("c", 20)]];
      var r := Settle(users, bets, "W", "L");
      r["a"].bottles == 13 && r["b"].bottles == 6 && r["c"].bottles == 0
  {
    var users := map["a" := Account("p", 0), "b" := Account("q", 0), "c" := Account("r", 0)];
    var bets := map["W" := [Stake("a", 10), Stake("b", 5)], "L" := [Stake("c", 20)]];
    var wb := BookOn(bets, "W");
    assert Sum(wb) == 15 && Sum(BookOn(bets, "L")) == 20;
    assert StakeOf(wb, "a") == Some(10) && StakeOf(wb, "b") == Some(5) && StakeOf(wb, "c") == None;
    assert Share(20, 10, 15) == 13 && Share(20, 5, 15) == 6;
  }
}
