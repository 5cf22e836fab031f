/** The cart mirror: the in-memory list of cart lines that the cart context
    keeps next to the remote cart. Each operation is a pure transition from
    the old list and the outcome of its remote call to the new list and
    whether the operation rethrows the call's error to its caller. */
module Cart {
  import opened Remote
  import opened Sequences

  /** The product summary embedded in a cart line. */
  datatype ProductSummary = ProductSummary(id: string, name: string, price: real, image: string)

  /** One line of the cart as the cart API returns it. */
  datatype CartItem = CartItem(id: string, productId: string, quantity: int, product: ProductSummary)

  /** The local list after an operation, and whether the operation rethrew
      the error of its remote call. */
  datatype Outcome = Outcome(items: seq<CartItem>, threw: bool)

  /** One user-triggered cart operation together with the outcome of its
      remote call(s). The request payloads (product, variant and requested
      quantity of an add) only reach the server, whose answer is the outcome. */
  datatype Op =
    | Fetch(cart: Response<seq<CartItem>>)
    | Add(post: Response<()>, refetch: Response<seq<CartItem>>)
    | Remove(itemId: string, deleted: Response<()>)
    | Update(itemId: string, requested: int, updated: Response<int>)
    | Clear

  /** Number of lines whose id is `id`. */
  function CountId(items: seq<CartItem>, id: string): (n: nat)
    ensures n <= |items|
  {
    if |items| == 0 then 0
    else (if items[0].id == id then 1 else 0) + CountId(items[1..], id)
  }

  /** `prevItems.filter(item => item.id !== itemId)`: exactly the lines with
      another id survive, each once per occurrence and in their order. */
  function RemoveLines(items: seq<CartItem>, itemId: string): (r: seq<CartItem>)
    ensures forall it :: it in r <==> it in items && it.id != itemId
    ensures IsSubsequence(r, items)
    ensures |r| == |items| - CountId(items, itemId)
  {
    if |items| == 0 then []
    else if items[0].id == itemId then RemoveLines(items[1..], itemId)
    else [items[0]] + RemoveLines(items[1..], itemId)
  }

  /** `prevItems.map(item => item.id === itemId ? {...item, quantity} : item)`:
      same length and order; matching lines get the new quantity and keep
      every other field, all other lines are untouched. */
  function SetQuantity(items: seq<CartItem>, itemId: string, quantity: int): (r: seq<CartItem>)
    ensures |r| == |items|
    ensures forall i :: 0 <= i < |items| && items[i].id != itemId ==> r[i] == items[i]
    ensures forall i :: 0 <= i < |items| && items[i].id == itemId ==>
              r[i] == items[i].(quantity := quantity)
  {
    if |items| == 0 then []
    else [if items[0].id == itemId then items[0].(quantity := quantity) else items[0]]
         + SetQuantity(items[1..], itemId, quantity)
  }

  /** `fetchCart`: on success the list becomes the server's list; a failure
      is logged and swallowed, leaving the list as it was. */
  function FetchCart(items: seq<CartItem>, cart: Response<seq<CartItem>>): (r: Outcome)
    ensures !r.threw
    ensures cart.Ok? ==> r.items == cart.data
    ensures cart.Failed? ==> r.items == items
  {
    match cart
    case Ok(data) => Outcome(data, false)
    case Failed => Outcome(items, false)
  }

  /** `addToCart`: a failed post leaves the list and rethrows; a successful
      post triggers `fetchCart`, whose own failure is swallowed. */
  function AddToCart(items: seq<CartItem>, post: Response<()>, refetch: Response<seq<CartItem>>): (r: Outcome)
    ensures post.Failed? ==> r == Outcome(items, true)
    ensures post.Ok? ==> !r.threw && r.items == (if refetch.Ok? then refetch.data else items)
  {
    if post.Failed? then Outcome(items, true) else FetchCart(items, refetch)
  }

  /** `removeFromCart`: after a successful delete the matching lines are
      filtered out locally without re-fetching; a failure rethrows. */
  function RemoveFromCart(items: seq<CartItem>, itemId: string, deleted: Response<()>): (r: Outcome)
    ensures deleted.Failed? ==> r == Outcome(items, true)
    ensures deleted.Ok? ==> !r.threw
    ensures deleted.Ok? ==> r.items == RemoveLines(items, itemId)
  {
    if deleted.Failed? then Outcome(items, true) else Outcome(RemoveLines(items, itemId), false)
  }

  /** `updateQuantity`: after a successful put the matching lines take the
      quantity the server answered, not the requested one; a failure
      rethrows. No lower bound on the requested quantity is checked. */
  function UpdateQuantity(items: seq<CartItem>, itemId: string, requested: int, updated: Response<int>): (r: Outcome)
    ensures updated.Failed? ==> r == Outcome(items, true)
    ensures updated.Ok? ==> !r.threw && |r.items| == |items|
    ensures updated.Ok? ==> forall i :: 0 <= i < |items| ==>
              && r.items[i].id == items[i].id
              && r.items[i].productId == items[i].productId
              && r.items[i].product == items[i].product
              && r.items[i].quantity == (if items[i].id == itemId then updated.data else items[i].quantity)
  {
    if updated.Failed? then Outcome(items, true)
    else Outcome(SetQuantity(items, itemId, updated.data), false)
  }

  /** `clearCart`: a local reset that never calls the server. */
  function ClearCart(items: seq<CartItem>): (r: Outcome)
    ensures r.items == [] && !r.threw
  {
    Outcome([], false)
  }

  /** `totalItems`: the number of lines, not the number of units. */
  function TotalItems(items: seq<CartItem>): nat
  {
    |items|
  }

  /** The sum of the quantities of all lines (what `totalItems` is not). */
  function TotalUnits(items: seq<CartItem>): int
  {
    if |items| == 0 then 0 else items[0].quantity + TotalUnits(items[1..])
  }

  /** Dispatch of one operation on the current list. */
  function Apply(items: seq<CartItem>, op: Op): Outcome
  {
    match op
    case Fetch(cart) => FetchCart(items, cart)
    case Add(post, refetch) => AddToCart(items, post, refetch)
    case Remove(itemId, deleted) => RemoveFromCart(items, itemId, deleted)
    case Update(itemId, requested, updated) => UpdateQuantity(items, itemId, requested, updated)
    case Clear => ClearCart(items)
  }

  /** The provider starts with an empty list and fetches once on mount. */
  function Initial(cart: Response<seq<CartItem>>): (r: seq<CartItem>)
    ensures cart.Ok? ==> r == cart.data
    ensures cart.Failed? ==> r == []
  {
    FetchCart([], cart).items
  }

  /** Whether the remote call of an operation failed (Clear has none). */
  predicate RemoteFailed(op: Op)
  {
    match op
    case Fetch(cart) => cart.Failed?
    case Add(post, _) => post.Failed?
    case Remove(_, deleted) => deleted.Failed?
    case Update(_, _, updated) => updated.Failed?
    case Clear => false
  }

  /** Whatever the operation, a failed remote call never changes the local
      list; it is reported to the caller exactly for the three mutating
      operations, while a failed fetch is swallowed. Only `clearCart` can
      empty the list without the server's say. */
  lemma FailureKeepsItems(items: seq<CartItem>, op: Op)
    requires RemoteFailed(op)
    ensures Apply(items, op).items == items
    ensures Apply(items, op).threw <==> !op.Fetch?
  {
  }

  /** An operation rethrows only when its remote call failed. */
  lemma ThrowsOnlyOnFailure(items: seq<CartItem>, op: Op)
    ensures Apply(items, op).threw ==> RemoteFailed(op)
  {
  }

  /** Removing an id no line carries changes nothing. */
  lemma {:induction false} RemoveAbsent(items: seq<CartItem>, itemId: string)
    requires forall it :: it in items ==> it.id != itemId
    ensures RemoveLines(items, itemId) == items
  {
    if |items| > 0 {
      assert items[0] in items;
      assert forall it :: it in items[1..] ==> it in items;
      RemoveAbsent(items[1..], itemId);
    }
  }

  /** A second removal of the same line is a no-op. */
  lemma RemoveIdempotent(items: seq<CartItem>, itemId: string)
    ensures RemoveLines(RemoveLines(items, itemId), itemId) == RemoveLines(items, itemId)
  {
    RemoveAbsent(RemoveLines(items, itemId), itemId);
  }

  /** Removals of two ids commute. */
  lemma {:induction false} RemoveCommutes(items: seq<CartItem>, a: string, b: string)
    ensures RemoveLines(RemoveLines(items, a), b) == RemoveLines(RemoveLines(items, b), a)
  {
    if |items| > 0 {
      RemoveCommutes(items[1..], a, b);
    }
  }

  /** Updating a line and then removing it is the same as removing it: the
      update touches nothing else. */
  lemma {:induction false} UpdateThenRemove(items: seq<CartItem>, itemId: string, quantity: int)
    ensures RemoveLines(SetQuantity(items, itemId, quantity), itemId) == RemoveLines(items, itemId)
  {
    if |items| > 0 {
      UpdateThenRemove(items[1..], itemId, quantity);
      assert SetQuantity(items, itemId, quantity)[1..] == SetQuantity(items[1..], itemId, quantity);
    }
  }

  /** An update and a removal commute: on different ids they touch
      different lines, and on the same id the removal drops the updated
      lines either way. */
  lemma {:induction false} UpdateCommutesWithRemove(items: seq<CartItem>, u: string, d: string, quantity: int)
    ensures RemoveLines(SetQuantity(items, u, quantity), d) == SetQuantity(RemoveLines(items, d), u, quantity)
  {
    if |items| > 0 {
      UpdateCommutesWithRemove(items[1..], u, d, quantity);
      assert SetQuantity(items, u, quantity)[1..] == SetQuantity(items[1..], u, quantity);
    }
  }

  /** The server's answer decides the local quantity: two different
      requested quantities with the same answer give the same list. */
  lemma UpdateIgnoresRequest(items: seq<CartItem>, itemId: string, q1: int, q2: int, updated: Response<int>)
    ensures UpdateQuantity(items, itemId, q1, updated) == UpdateQuantity(items, itemId, q2, updated)
  {
  }

  /** Applying the same answered update twice is the same as once. */
  lemma {:induction false} UpdateIdempotent(items: seq<CartItem>, itemId: string, quantity: int)
    ensures SetQuantity(SetQuantity(items, itemId, quantity), itemId, quantity) == SetQuantity(items, itemId, quantity)
  {
    if |items| > 0 {
      UpdateIdempotent(items[1..], itemId, quantity);
      assert SetQuantity(items, itemId, quantity)[1..] == SetQuantity(items[1..], itemId, quantity);
    }
  }

  /** How `totalItems` moves under each successful operation: a removal
      drops it by the number of matching lines, an update keeps it, a clear
      zeroes it, a fetch or add takes the server's line count. */
  lemma TotalItemsAfter(items: seq<CartItem>, op: Op)
    requires !RemoteFailed(op)
    ensures op.Remove? ==> TotalItems(Apply(items, op).items) == TotalItems(items) - CountId(items, op.itemId)
    ensures op.Update? ==> TotalItems(Apply(items, op).items) == TotalItems(items)
    ensures op.Clear? ==> TotalItems(Apply(items, op).items) == 0
    ensures op.Fetch? ==> TotalItems(Apply(items, op).items) == |op.cart.data|
    ensures op.Add? && op.refetch.Ok? ==> TotalItems(Apply(items, op).items) == |op.refetch.data|
  {
  }

  /** `totalItems` counts lines, so a single line holding two units shows
      one item. */
  lemma TotalItemsIsNotUnits(p: ProductSummary)
    ensures var items := [CartItem("line", "shoe", 2, p)];
            TotalItems(items) == 1 && TotalUnits(items) == 2
  {
    var items := [CartItem("line", "shoe", 2, p)];
    assert items[1..] == [];
  }
}
