/**
 * The in-memory store: quotes by identifier and users by numeric id, each a
 * JavaScript `Map`, whose iteration order is first-insertion order. A map
 * field holds the entries and a sequence field the keys in that order.
 */
module Storage {
  import opened Wrappers
  import opened Schema

  datatype InsertUser = InsertUser(username: string, password: string)
  datatype User = User(id: int, username: string, password: string)

  /** No key appears twice. */
  predicate Distinct<K(==)>(order: seq<K>)
  {
    forall i, j :: 0 <= i < j < |order| ==> order[i] != order[j]
  }

  /** The keys are distinct and are exactly the map's domain. */
  ghost predicate OrderedKeys<K(!new), V>(m: map<K, V>, order: seq<K>)
  {
    && Distinct(order)
    && (forall k :: k in m <==> k in order)
  }

  /**
   * The key order after `Map.set(k, _)`: every key already there keeps its
   * place, the order grows by one key exactly when `k` is new, the keys are
   * the old ones and `k`, and no key comes to appear twice.
   */
  function InsertOrder<K(==,!new)>(order: seq<K>, k: K): (r: seq<K>)
    ensures |order| <= |r| && r[..|order|] == order
    ensures |r| == if k in order then |order| else |order| + 1
    ensures forall x :: x in r <==> x in order || x == k
    ensures Distinct(order) ==> Distinct(r)
  {
    if k in order then order else order + [k]
  }

  /** `Array.from(m.values())`: the values in key order. */
  function ValuesInOrder<K(==,!new), V>(m: map<K, V>, order: seq<K>): (vs: seq<V>)
    requires forall k :: k in order ==> k in m
    ensures |vs| == |order|
    ensures forall i :: 0 <= i < |order| ==> vs[i] == m[order[i]]
  {
    seq(|order|, i requires 0 <= i < |order| => m[order[i]])
  }

  /** `Map.set` keeps the key order well formed. */
  lemma SetKeepsOrderedKeys<K(!new), V>(m: map<K, V>, order: seq<K>, k: K, v: V)
    requires OrderedKeys(m, order)
    ensures OrderedKeys(m[k := v], InsertOrder(order, k))
  {
  }

  /** With distinct keys, there are as many keys as entries. */
  lemma {:induction false} OrderedKeysCount<K(!new), V>(m: map<K, V>, order: seq<K>)
    requires OrderedKeys(m, order)
    ensures |order| == |m|
    decreases |order|
  {
    if order != [] {
      var last := order[|order| - 1];
      var rest := order[..|order| - 1];
      var m' := map k | k in m && k != last :: m[k];
      assert m'.Keys == m.Keys - {last};
      forall k ensures k in m' <==> k in rest {
        if k in rest {
          var i :| 0 <= i < |rest| && rest[i] == k;
          assert order[i] == k && i < |order| - 1;
        }
        if k in m && k != last {
          var i :| 0 <= i < |order| && order[i] == k;
          assert i != |order| - 1;
          assert rest[i] == k;
        }
      }
      OrderedKeysCount(m', rest);
    } else {
      assert m.Keys == {};
    }
  }

  /**
   * Every stored value is enumerated once, in first-insertion order; an
   * overwrite keeps the key's place and replaces only that value.
   */
  lemma ValuesAfterSet<K(!new), V>(m: map<K, V>, order: seq<K>, k: K, v: V)
    requires OrderedKeys(m, order)
    ensures var vs := ValuesInOrder(m[k := v], InsertOrder(order, k));
      && (k !in m ==> vs == ValuesInOrder(m, order) + [v])
      && (k in m ==> exists i :: 0 <= i < |order| && order[i] == k
                       && vs == ValuesInOrder(m, order)[i := v])
  {
    var vs := ValuesInOrder(m[k := v], InsertOrder(order, k));
    if k in m {
      var i :| 0 <= i < |order| && order[i] == k;
      assert vs == ValuesInOrder(m, order)[i := v];
    } else {
      assert vs == ValuesInOrder(m, order) + [v];
    }
  }

  /** `getAllQuotes` holds exactly one value per stored key. */
  lemma ValuesAreTheEntries<K(!new), V>(m: map<K, V>, order: seq<K>)
    requires OrderedKeys(m, order)
    ensures |ValuesInOrder(m, order)| == |m|
    ensures forall k :: k in m ==> exists i :: 0 <= i < |order| && order[i] == k
                                     && ValuesInOrder(m, order)[i] == m[k]
  {
    OrderedKeysCount(m, order);
    forall k | k in m
      ensures exists i :: 0 <= i < |order| && order[i] == k && ValuesInOrder(m, order)[i] == m[k]
    {
      var i :| 0 <= i < |order| && order[i] == k;
    }
  }

  /** Saving twice adds nothing; a second save under the same key wins without growing the store. */
  lemma RepeatedSet<K(!new), V>(m: map<K, V>, order: seq<K>, k: K, v1: V, v2: V)
    ensures m[k := v1][k := v1] == m[k := v1]
    ensures InsertOrder(InsertOrder(order, k), k) == InsertOrder(order, k)
    ensures m[k := v1][k := v2] == m[k := v2]
    ensures (m[k := v1][k := v2]).Keys == (m[k := v1]).Keys
  {
  }

  class MemStorage {
    var quotes: map<string, QuoteResponse>
    var quoteOrder: seq<string>
    var users: map<int, User>
    var userOrder: seq<int>
    var currentUserId: int

    ghost predicate Valid()
      reads this
    {
      && OrderedKeys(quotes, quoteOrder)
      && (forall k :: k in quotes ==> quotes[k].quoteId == k)
      && OrderedKeys(users, userOrder)
      && currentUserId >= 1
      && (forall id :: id in users ==> 1 <= id < currentUserId && users[id].id == id)
      && (forall i, j :: 0 <= i < j < |userOrder| ==> userOrder[i] < userOrder[j])
    }

    constructor ()
      ensures Valid()
      ensures quotes == map[] && quoteOrder == []
      ensures users == map[] && userOrder == [] && currentUserId == 1
    {
      quotes, quoteOrder := map[], [];
      users, userOrder := map[], [];
      currentUserId := 1;
    }

    method GetUser(id: int) returns (u: Option<User>)
      requires Valid()
      ensures u.Some? <==> id in users
      ensures u.Some? ==> u.value == users[id] && u.value.id == id
    {
      u := if id in users then Some(users[id]) else None;
    }

    /** `find` over the users in insertion order: the first one with that name. */
    method GetUserByUsername(username: string) returns (u: Option<User>)
      requires Valid()
      ensures u.None? <==> forall i :: 0 <= i < |userOrder| ==> users[userOrder[i]].username != username
      ensures u.Some? ==> exists i :: 0 <= i < |userOrder| && users[userOrder[i]] == u.value
                            && u.value.username == username
                            && forall j :: 0 <= j < i ==> users[userOrder[j]].username != username
    {
      var i := 0;
      while i < |userOrder|
        invariant 0 <= i <= |userOrder|
        invariant forall j :: 0 <= j < i ==> users[userOrder[j]].username != username
      {
        var user := users[userOrder[i]];
        if user.username == username {
          return Some(user);
        }
        i := i + 1;
      }
      return None;
    }

    /** The next id is assigned, then the counter moves on. */
    method CreateUser(insert: InsertUser) returns (u: User)
      requires Valid()
      modifies this
      ensures Valid()
      ensures u == User(old(currentUserId), insert.username, insert.password)
      ensures old(currentUserId) !in old(users)
      ensures currentUserId == old(currentUserId) + 1
      ensures users == old(users)[u.id := u] && userOrder == old(userOrder) + [u.id]
      ensures quotes == old(quotes) && quoteOrder == old(quoteOrder)
    {
      forall i | 0 <= i < |userOrder| ensures userOrder[i] < currentUserId {
        assert userOrder[i] in userOrder;
      }
      var id := currentUserId;
      currentUserId := currentUserId + 1;
      u := User(id, insert.username, insert.password);
      users := users[id := u];
      userOrder := InsertOrder(userOrder, id);
    }

    /** Stores the quote under its identifier and hands it back unchanged. */
    method SaveQuote(quote: QuoteResponse) returns (saved: QuoteResponse)
      requires Valid()
      modifies this
      ensures Valid()
      ensures saved == quote
      ensures quotes == old(quotes)[quote.quoteId := quote]
      ensures quoteOrder == InsertOrder(old(quoteOrder), quote.quoteId)
      ensures users == old(users) && userOrder == old(userOrder)
      ensures currentUserId == old(currentUserId)
    {
      quotes := quotes[quote.quoteId := quote];
      quoteOrder := InsertOrder(quoteOrder, quote.quoteId);
      saved := quote;
    }

    /** An exact-key lookup; expiry is not looked at. */
    method GetQuote(quoteId: string) returns (q: Option<QuoteResponse>)
      requires Valid()
      ensures q.Some? <==> quoteId in quotes
      ensures q.Some? ==> q.value == quotes[quoteId] && q.value.quoteId == quoteId
    {
      q := if quoteId in quotes then Some(quotes[quoteId]) else None;
    }

    /** The stored quotes in first-insertion order. */
    method GetAllQuotes() returns (all: seq<QuoteResponse>)
      requires Valid()
      ensures |all| == |quotes|
      ensures all == ValuesInOrder(quotes, quoteOrder)
    {
      all := [];
      var i := 0;
      while i < |quoteOrder|
        invariant 0 <= i <= |quoteOrder|
        invariant all == ValuesInOrder(quotes, quoteOrder[..i])
      {
        all := all + [quotes[quoteOrder[i]]];
        i := i + 1;
      }
      assert quoteOrder[..i] == quoteOrder;
      OrderedKeysCount(quotes, quoteOrder);
    }
  }
}
