/** The wager ledger of server/index.js: registered accounts with their bottle
    balances, and, per player, the book of bets placed on that player.

    A book is a JavaScript object `{ username: amount }`. It is modelled as the
    sequence of its entries in insertion order (the order `Object.entries`
    visits them), with at most one entry per user (`Keyed`). */
module Ledger {
  import opened Options

  /** One entry `username: amount` of a player's book. */
  datatype Stake = Stake(user: string, amount: int)

  type Book = seq<Stake>

  /** A registered user: `{ password, bottles }`. */
  datatype Account = Account(password: string, bottles: int)

  /** Balance every account starts with, and is reset to. */
  const StartingBottles: int := 20

  /** The users that have an entry in the book (`Object.keys`). */
  function Users(b: Book): set<string> {
    if |b| == 0 then {} else {b[0].user} + Users(b[1..])
  }

  /** No user has two entries in the book (the keys of a JS object are unique). */
  predicate Keyed(b: Book) {
    |b| == 0 || (b[0].user !in Users(b[1..]) && Keyed(b[1..]))
  }

  /** `book[u]`: the amount `u` has on this book, if any. */
  function StakeOf(b: Book, u: string): (r: Option<int>)
    ensures r.None? <==> u !in Users(b)
    ensures r.Some? ==> Stake(u, r.value) in b
  {
    if |b| == 0 then None
    else if b[0].user == u then Some(b[0].amount)
    else StakeOf(b[1..], u)
  }

  /** The amount `u` has on the book, 0 when there is none. */
  function StakeOr0(b: Book, u: string): int {
    match StakeOf(b, u)
    case Some(a) => a
    case None => 0
  }

  /** Sum of the amounts on a book: `Object.values(book).reduce(+, 0)`. */
  function Sum(b: Book): int {
    if |b| == 0 then 0 else b[0].amount + Sum(b[1..])
  }

  /** `book[u] = a`: an existing entry keeps its position and gets the new
      amount, a new entry is appended. */
  function Put(b: Book, u: string, a: int): (r: Book)
    requires Keyed(b)
    ensures Keyed(r)
    ensures StakeOf(r, u) == Some(a)
    ensures forall v :: v != u ==> StakeOf(r, v) == StakeOf(b, v)
    ensures Users(r) == Users(b) + {u}
    ensures Sum(r) == Sum(b) - StakeOr0(b, u) + a
    ensures forall x :: x in r ==> x in b || x == Stake(u, a)
  {
    if |b| == 0 then
      Cons(Stake(u, a), []);
      [Stake(u, a)]
    else if b[0].user == u then
      Cons(Stake(u, a), b[1..]);
      [Stake(u, a)] + b[1..]
    else
      var rest := Put(b[1..], u, a);
      Cons(b[0], rest);
      Cons(b[0], b[1..]);
      [b[0]] + rest
  }

  /** A user new to the book is appended at the end: JavaScript objects list
      their keys in insertion order, except keys that look like array indices,
      which this model does not single out. */
  lemma {:induction false} PutAppends(b: Book, u: string, a: int)
    requires Keyed(b) && u !in Users(b)
    ensures Put(b, u, a) == b + [Stake(u, a)]
  {
    if |b| > 0 {
      var st := Stake(u, a);
      assert b[0].user != u;
      PutAppends(b[1..], u, a);
      assert Put(b, u, a) == [b[0]] + (b[1..] + [st]);
      assert b == [b[0]] + b[1..];
      assert [b[0]] + (b[1..] + [st]) == ([b[0]] + b[1..]) + [st];
    }
  }

  /** `delete book[u]`. */
  function Delete(b: Book, u: string): (r: Book)
    requires Keyed(b)
    ensures Keyed(r)
    ensures StakeOf(r, u).None?
    ensures forall v :: v != u ==> StakeOf(r, v) == StakeOf(b, v)
    ensures Users(r) == Users(b) - {u}
    ensures Sum(r) == Sum(b) - StakeOr0(b, u)
    ensures u !in Users(b) ==> r == b
    ensures forall x :: x in r ==> x in b
  {
    if |b| == 0 then []
    else if b[0].user == u then
      Cons(b[0], b[1..]);
      Delete(b[1..], u)
    else
      var rest := Delete(b[1..], u);
      Cons(b[0], rest);
      Cons(b[0], b[1..]);
      [b[0]] + rest
  }

  /** What the book functions say of a book with one more entry in front. */
  lemma Cons(x: Stake, rest: Book)
    ensures var b := [x] + rest;
      && b[0] == x && b[1..] == rest
      && Users(b) == {x.user} + Users(rest)
      && Sum(b) == x.amount + Sum(rest)
      && (Keyed(b) <==> x.user !in Users(rest) && Keyed(rest))
      && (forall v :: StakeOf(b, v) == if x.user == v then Some(x.amount) else StakeOf(rest, v))
      && (forall y :: y in b <==> y == x || y in rest)
  {
    var b := [x] + rest;
    assert b[1..] == rest;
  }

  /** Membership in `Users` is having an entry. */
  lemma {:induction false} UsersMember(b: Book, u: string)
    ensures u in Users(b) <==> exists i :: 0 <= i < |b| && b[i].user == u
  {
    if |b| > 0 {
      UsersMember(b[1..], u);
      if u in Users(b[1..]) {
        var i :| 0 <= i < |b[1..]| && b[1..][i].user == u;
        assert b[i + 1].user == u;
      }
      if exists i :: 0 <= i < |b| && b[i].user == u {
        var i :| 0 <= i < |b| && b[i].user == u;
        if i > 0 {
          assert b[1..][i - 1].user == u;
        }
      }
    }
  }

  /** In a keyed book, looking up the user of an entry finds that entry. */
  lemma {:induction false} KeyedLookup(b: Book, i: int)
    requires Keyed(b) && 0 <= i < |b|
    ensures StakeOf(b, b[i].user) == Some(b[i].amount)
  {
    if i > 0 {
      KeyedLookup(b[1..], i - 1);
      assert b[1..][i - 1] == b[i];
      UsersMember(b[1..], b[i].user);
    }
  }
}
