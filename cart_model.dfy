/**
 * The session cart of routes/cart.js as a value: a list of entries in which
 * the pair (foodId, hotelId) identifies an entry, and the functions the
 * handlers use on it (`findIndex`, `filter`, the quantity `reduce`).
 */
module CartModel {
  import opened Wrappers

  /** One entry pushed by `POST /add`; `hotelId` may be missing from the request. */
  datatype CartEntry = CartEntry(
    foodId: int,
    foodName: string,
    price: int,
    quantity: int,
    hotelId: Option<int>,
    hotelName: Option<string>,
    imageUrl: Option<string>)

  /** What `item.foodId === foodId && item.hotelId === hotelId` compares. */
  datatype Key = Key(foodId: int, hotelId: Option<int>)

  function KeyOf(e: CartEntry): Key {
    Key(e.foodId, e.hotelId)
  }

  /** The invariant `POST /add` maintains: no key occurs twice. */
  ghost predicate UniqueKeys(cart: seq<CartEntry>) {
    forall i, j :: 0 <= i < j < |cart| ==> KeyOf(cart[i]) != KeyOf(cart[j])
  }

  /** `cart.reduce((sum, item) => sum + item.quantity, 0)`. */
  function Count(cart: seq<CartEntry>): int {
    if cart == [] then 0 else cart[0].quantity + Count(cart[1..])
  }

  /** `cart.findIndex(...)`: the first entry with key `k`, or -1. */
  function FindIndex(cart: seq<CartEntry>, k: Key): (i: int)
    ensures -1 <= i < |cart|
    ensures 0 <= i ==> KeyOf(cart[i]) == k && forall j :: 0 <= j < i ==> KeyOf(cart[j]) != k
    ensures i == -1 <==> forall j :: 0 <= j < |cart| ==> KeyOf(cart[j]) != k
  {
    if cart == [] then -1
    else if KeyOf(cart[0]) == k then 0
    else
      var i := FindIndex(cart[1..], k);
      if i == -1 then -1 else i + 1
  }

  /** `cart.filter(item => !(key matches))`: the entries with another key, in order. */
  function Without(cart: seq<CartEntry>, k: Key): (r: seq<CartEntry>)
    ensures |r| <= |cart|
    ensures forall e :: e in r <==> e in cart && KeyOf(e) != k
  {
    if cart == [] then []
    else if KeyOf(cart[0]) == k then Without(cart[1..], k)
    else [cart[0]] + Without(cart[1..], k)
  }

  /** The cart without its entry at `i`, as `splice(i, 1)` leaves it. */
  function RemoveAt(cart: seq<CartEntry>, i: nat): (r: seq<CartEntry>)
    requires i < |cart|
    ensures |r| == |cart| - 1
    ensures forall j :: 0 <= j < i ==> r[j] == cart[j]
    ensures forall j :: i <= j < |r| ==> r[j] == cart[j + 1]
  {
    cart[..i] + cart[i + 1..]
  }

  /** The cart with the quantity of entry `i` set to `q`. */
  function WithQuantity(cart: seq<CartEntry>, i: nat, q: int): (r: seq<CartEntry>)
    requires i < |cart|
    ensures |r| == |cart| && r[i].quantity == q && r[i].(quantity := cart[i].quantity) == cart[i]
    ensures forall j :: 0 <= j < |cart| && j != i ==> r[j] == cart[j]
  {
    cart[i := cart[i].(quantity := q)]
  }

  lemma {:induction false} CountAppend(a: seq<CartEntry>, b: seq<CartEntry>)
    ensures Count(a + b) == Count(a) + Count(b)
  {
    if a == [] {
      assert a + b == b;
    } else {
      assert (a + b)[1..] == a[1..] + b;
      CountAppend(a[1..], b);
    }
  }

  /** Pushing an entry adds its quantity to the count. */
  lemma CountPush(cart: seq<CartEntry>, e: CartEntry)
    ensures Count(cart + [e]) == Count(cart) + e.quantity
  {
    CountAppend(cart, [e]);
    assert [e][1..] == [];
  }

  /** Setting one quantity changes the count by the difference. */
  lemma {:induction false} CountWithQuantity(cart: seq<CartEntry>, i: nat, q: int)
    requires i < |cart|
    ensures Count(WithQuantity(cart, i, q)) == Count(cart) - cart[i].quantity + q
  {
    var r := WithQuantity(cart, i, q);
    if i == 0 {
      assert r[1..] == cart[1..];
    } else {
      assert r[1..] == WithQuantity(cart[1..], i - 1, q);
      CountWithQuantity(cart[1..], i - 1, q);
    }
  }

  /** Removing one entry subtracts its quantity from the count. */
  lemma {:induction false} CountRemoveAt(cart: seq<CartEntry>, i: nat)
    requires i < |cart|
    ensures Count(RemoveAt(cart, i)) == Count(cart) - cart[i].quantity
  {
    var r := RemoveAt(cart, i);
    if i == 0 {
      assert r == cart[1..];
    } else {
      assert r[0] == cart[0];
      assert r[1..] == RemoveAt(cart[1..], i - 1);
      CountRemoveAt(cart[1..], i - 1);
    }
  }

  /** Filtering out an absent key leaves the cart as it is. */
  lemma {:induction false} WithoutAbsent(cart: seq<CartEntry>, k: Key)
    requires FindIndex(cart, k) == -1
    ensures Without(cart, k) == cart
  {
    if cart != [] {
      assert FindIndex(cart[1..], k) == -1;
      WithoutAbsent(cart[1..], k);
    }
  }

  /** In a cart with unique keys, filtering out a present key removes exactly its one entry. */
  lemma {:induction false} WithoutPresent(cart: seq<CartEntry>, k: Key)
    requires UniqueKeys(cart) && FindIndex(cart, k) >= 0
    ensures Without(cart, k) == RemoveAt(cart, FindIndex(cart, k))
  {
    var i := FindIndex(cart, k);
    UniqueTail(cart);
    if i == 0 {
      AbsentAfterFirst(cart, k);
      WithoutAbsent(cart[1..], k);
      assert RemoveAt(cart, 0) == cart[1..];
    } else {
      assert FindIndex(cart[1..], k) == i - 1;
      WithoutPresent(cart[1..], k);
      RemoveAtTail(cart, i);
    }
  }

  lemma UniqueTail(cart: seq<CartEntry>)
    requires UniqueKeys(cart) && cart != []
    ensures UniqueKeys(cart[1..])
  {
    var t := cart[1..];
    forall i, j | 0 <= i < j < |t| ensures KeyOf(t[i]) != KeyOf(t[j]) {
      assert t[i] == cart[i + 1] && t[j] == cart[j + 1];
    }
  }

  /** With unique keys, the first entry's key occurs nowhere after it. */
  lemma AbsentAfterFirst(cart: seq<CartEntry>, k: Key)
    requires UniqueKeys(cart) && cart != [] && KeyOf(cart[0]) == k
    ensures FindIndex(cart[1..], k) == -1
  {
    forall j | 0 <= j < |cart[1..]| ensures KeyOf(cart[1..][j]) != k {
      assert cart[1..][j] == cart[j + 1];
    }
  }

  /** Splicing out a later entry keeps the first one in front. */
  lemma RemoveAtTail(cart: seq<CartEntry>, i: nat)
    requires 0 < i < |cart|
    ensures RemoveAt(cart, i) == [cart[0]] + RemoveAt(cart[1..], i - 1)
  {
    assert cart[..i] == [cart[0]] + cart[1..][..i - 1];
    assert cart[i + 1..] == cart[1..][i..];
  }

  /** Filtering keeps keys unique. */
  lemma {:induction false} WithoutUnique(cart: seq<CartEntry>, k: Key)
    requires UniqueKeys(cart)
    ensures UniqueKeys(Without(cart, k))
  {
    if cart != [] {
      UniqueTail(cart);
      WithoutUnique(cart[1..], k);
      if KeyOf(cart[0]) != k {
        FirstKeyOnce(cart);
        ConsUnique(cart[0], Without(cart[1..], k));
      }
    }
  }

  /** With unique keys, no later entry shares the first entry's key. */
  lemma FirstKeyOnce(cart: seq<CartEntry>)
    requires UniqueKeys(cart) && cart != []
    ensures forall x :: x in cart[1..] ==> KeyOf(x) != KeyOf(cart[0])
  {
    forall x | x in cart[1..] ensures KeyOf(x) != KeyOf(cart[0]) {
      var m :| 0 <= m < |cart[1..]| && cart[1..][m] == x;
      assert cart[m + 1] == x;
    }
  }

  /** Putting an entry in front of a cart without its key keeps keys unique. */
  lemma ConsUnique(e: CartEntry, rest: seq<CartEntry>)
    requires UniqueKeys(rest) && forall x :: x in rest ==> KeyOf(x) != KeyOf(e)
    ensures UniqueKeys([e] + rest)
  {
    var r := [e] + rest;
    forall i, j | 0 <= i < j < |r| ensures KeyOf(r[i]) != KeyOf(r[j]) {
      assert r[j] == rest[j - 1] && rest[j - 1] in rest;
      if i > 0 {
        assert r[i] == rest[i - 1];
      }
    }
  }

  /** The count after removing key `k` from a cart with unique keys. */
  lemma CountWithout(cart: seq<CartEntry>, k: Key)
    requires UniqueKeys(cart)
    ensures FindIndex(cart, k) == -1 ==> Count(Without(cart, k)) == Count(cart)
    ensures FindIndex(cart, k) >= 0 ==>
      Count(Without(cart, k)) == Count(cart) - cart[FindIndex(cart, k)].quantity
  {
    var i := FindIndex(cart, k);
    if i == -1 {
      WithoutAbsent(cart, k);
    } else {
      WithoutPresent(cart, k);
      CountRemoveAt(cart, i);
    }
  }

  /** Removing an entry keeps keys unique. */
  lemma RemoveAtUnique(cart: seq<CartEntry>, i: nat)
    requires UniqueKeys(cart) && i < |cart|
    ensures UniqueKeys(RemoveAt(cart, i))
  {
    var r := RemoveAt(cart, i);
    forall a, b | 0 <= a < b < |r| ensures KeyOf(r[a]) != KeyOf(r[b]) {
      var a' := if a < i then a else a + 1;
      var b' := if b < i then b else b + 1;
      assert r[a] == cart[a'] && r[b] == cart[b'];
    }
  }

  /** Appending an entry whose key is absent keeps keys unique. */
  lemma PushUnique(cart: seq<CartEntry>, e: CartEntry)
    requires UniqueKeys(cart) && FindIndex(cart, KeyOf(e)) == -1
    ensures UniqueKeys(cart + [e])
  {
    var r := cart + [e];
    forall a, b | 0 <= a < b < |r| ensures KeyOf(r[a]) != KeyOf(r[b]) {
      if b < |cart| {
        assert r[a] == cart[a] && r[b] == cart[b];
      } else {
        assert r[a] == cart[a];
      }
    }
  }

  /** Changing a quantity changes no key. */
  lemma WithQuantityUnique(cart: seq<CartEntry>, i: nat, q: int)
    requires UniqueKeys(cart) && i < |cart|
    ensures UniqueKeys(WithQuantity(cart, i, q))
  {
    var r := WithQuantity(cart, i, q);
    assert forall j :: 0 <= j < |r| ==> KeyOf(r[j]) == KeyOf(cart[j]);
  }

  // ---------------------------------------------------------------------------
  // The carts the handlers leave behind

  /** `POST /add` of a valid entry: add its quantity to the entry with its key, or push it. */
  function Added(cart: seq<CartEntry>, e: CartEntry): (r: seq<CartEntry>)
    ensures |r| == |cart| || |r| == |cart| + 1
  {
    var i := FindIndex(cart, KeyOf(e));
    if i >= 0 then WithQuantity(cart, i, cart[i].quantity + e.quantity) else cart + [e]
  }

  /** The keys present in a cart. */
  function Keys(cart: seq<CartEntry>): set<Key> {
    set e | e in cart :: KeyOf(e)
  }

  /** A key is present exactly when `findIndex` finds it. */
  lemma KeysFind(cart: seq<CartEntry>, k: Key)
    ensures k in Keys(cart) <==> FindIndex(cart, k) >= 0
  {
    if FindIndex(cart, k) >= 0 {
      assert KeyOf(cart[FindIndex(cart, k)]) == k;
    }
  }

  /** Carts with the same key at every position have the same keys. */
  lemma KeysPointwise(a: seq<CartEntry>, b: seq<CartEntry>)
    requires |a| == |b| && forall j :: 0 <= j < |a| ==> KeyOf(a[j]) == KeyOf(b[j])
    ensures Keys(a) == Keys(b)
  {
    forall k | k in Keys(a) ensures k in Keys(b) {
      var e :| e in a && KeyOf(e) == k;
      var j :| 0 <= j < |a| && a[j] == e;
      assert b[j] in b;
    }
    forall k | k in Keys(b) ensures k in Keys(a) {
      var e :| e in b && KeyOf(e) == k;
      var j :| 0 <= j < |b| && b[j] == e;
      assert a[j] in a;
    }
  }

  lemma KeysPush(cart: seq<CartEntry>, e: CartEntry)
    ensures Keys(cart + [e]) == Keys(cart) + {KeyOf(e)}
  {
    assert forall x :: x in cart + [e] <==> x in cart || x == e;
  }

  lemma KeysWithout(cart: seq<CartEntry>, k: Key)
    ensures Keys(Without(cart, k)) == Keys(cart) - {k}
  {
  }

  /** An add keeps keys unique. */
  lemma AddedUnique(cart: seq<CartEntry>, e: CartEntry)
    requires UniqueKeys(cart)
    ensures UniqueKeys(Added(cart, e))
  {
    var i := FindIndex(cart, KeyOf(e));
    if i >= 0 {
      WithQuantityUnique(cart, i, cart[i].quantity + e.quantity);
    } else {
      PushUnique(cart, e);
    }
  }

  /**
   * A new key is appended as exactly one entry at the end; an existing key
   * keeps the length and grows only its own entry's quantity. Either way
   * keys stay unique and the count grows by the quantity added.
   */
  lemma AddedSpec(cart: seq<CartEntry>, e: CartEntry)
    requires UniqueKeys(cart)
    ensures UniqueKeys(Added(cart, e))
    ensures Count(Added(cart, e)) == Count(cart) + e.quantity
    ensures FindIndex(cart, KeyOf(e)) == -1 ==>
      |Added(cart, e)| == |cart| + 1 && Added(cart, e)[..|cart|] == cart && Added(cart, e)[|cart|] == e
    ensures FindIndex(cart, KeyOf(e)) >= 0 ==>
      var i := FindIndex(cart, KeyOf(e));
      && |Added(cart, e)| == |cart|
      && Added(cart, e)[i] == cart[i].(quantity := cart[i].quantity + e.quantity)
      && forall j :: 0 <= j < |cart| && j != i ==> Added(cart, e)[j] == cart[j]
  {
    var i := FindIndex(cart, KeyOf(e));
    AddedUnique(cart, e);
    if i >= 0 {
      CountWithQuantity(cart, i, cart[i].quantity + e.quantity);
    } else {
      CountPush(cart, e);
      assert (cart + [e])[..|cart|] == cart;
    }
  }

  /** After an add the cart holds exactly the keys it held plus the added one. */
  lemma AddedKeys(cart: seq<CartEntry>, e: CartEntry)
    ensures Keys(Added(cart, e)) == Keys(cart) + {KeyOf(e)}
  {
    var i := FindIndex(cart, KeyOf(e));
    if i >= 0 {
      var r := WithQuantity(cart, i, cart[i].quantity + e.quantity);
      KeysPointwise(r, cart);
      KeysFind(cart, KeyOf(e));
    } else {
      KeysPush(cart, e);
    }
  }

  /**
   * `PUT /update` on a cart: `None` when the key is absent (404); otherwise
   * a quantity of at most 0 splices the entry out, any other sets it.
   */
  function Updated(cart: seq<CartEntry>, k: Key, q: int): (r: Option<seq<CartEntry>>)
    ensures r.None? <==> FindIndex(cart, k) == -1
  {
    var i := FindIndex(cart, k);
    if i == -1 then None
    else if q <= 0 then Some(RemoveAt(cart, i))
    else Some(WithQuantity(cart, i, q))
  }

  /**
   * A successful update keeps keys unique; a quantity of at most 0 drops
   * the key and its quantity from the count, any other replaces that
   * entry's quantity in the count.
   */
  lemma UpdatedSpec(cart: seq<CartEntry>, k: Key, q: int)
    requires UniqueKeys(cart) && FindIndex(cart, k) >= 0
    ensures Updated(cart, k, q).Some? && UniqueKeys(Updated(cart, k, q).value)
    ensures q <= 0 ==>
      && Count(Updated(cart, k, q).value) == Count(cart) - cart[FindIndex(cart, k)].quantity
      && FindIndex(Updated(cart, k, q).value, k) == -1
      && Updated(cart, k, q).value == Without(cart, k)
    ensures q > 0 ==>
      && Count(Updated(cart, k, q).value) == Count(cart) - cart[FindIndex(cart, k)].quantity + q
      && Keys(Updated(cart, k, q).value) == Keys(cart)
  {
    var i := FindIndex(cart, k);
    if q <= 0 {
      RemoveAtUnique(cart, i);
      CountRemoveAt(cart, i);
      WithoutPresent(cart, k);
      KeysWithout(cart, k);
      KeysFind(RemoveAt(cart, i), k);
    } else {
      WithQuantityUnique(cart, i, q);
      CountWithQuantity(cart, i, q);
      KeysPointwise(WithQuantity(cart, i, q), cart);
    }
  }

  /**
   * `DELETE /remove`: the key is gone, every other key stays, keys stay
   * unique, and an absent key leaves the cart as it was.
   */
  lemma RemovedSpec(cart: seq<CartEntry>, k: Key)
    requires UniqueKeys(cart)
    ensures UniqueKeys(Without(cart, k))
    ensures Keys(Without(cart, k)) == Keys(cart) - {k}
    ensures FindIndex(cart, k) == -1 ==> Without(cart, k) == cart
    ensures FindIndex(cart, k) >= 0 ==> Without(cart, k) == RemoveAt(cart, FindIndex(cart, k))
  {
    WithoutUnique(cart, k);
    KeysWithout(cart, k);
    if FindIndex(cart, k) == -1 {
      WithoutAbsent(cart, k);
    } else {
      WithoutPresent(cart, k);
    }
  }
}
