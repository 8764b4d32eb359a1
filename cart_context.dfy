/**
 * frontend/src/context/CartContext.jsx: the client-side cart. Each updater
 * returns a new list of lines; a line is the product document spread out
 * with a `quantity` (`{ ...product, quantity }`), keyed by `_id`.
 */
module CartContext {
  import opened Models
  import Lists

  datatype Line = Line(doc: ProductDoc, quantity: int)

  /** Whether some line carries `id`. */
  predicate Has(lines: seq<Line>, id: Id) {
    exists i :: 0 <= i < |lines| && lines[i].doc.id == id
  }

  /** At most one line per `_id`. */
  predicate UniqueIds(lines: seq<Line>) {
    forall i, j :: 0 <= i < j < |lines| ==> lines[i].doc.id != lines[j].doc.id
  }

  /** The quantity on the line for `id`, or 0 when there is none. */
  function QuantityOf(lines: seq<Line>, id: Id): (q: int)
    ensures !Has(lines, id) ==> q == 0
    ensures UniqueIds(lines) ==> forall i :: 0 <= i < |lines| && lines[i].doc.id == id ==> q == lines[i].quantity
  {
    if |lines| == 0 then 0
    else if lines[0].doc.id == id then lines[0].quantity
    else
      assert forall i :: 1 <= i < |lines| ==> lines[i] == lines[1..][i - 1];
      QuantityOf(lines[1..], id)
  }

  /**
   * addToCart: a product already in the cart gets one more unit on its line
   * (every line with its id, and only those); a new one is appended with
   * quantity 1. The product document is the only input: one unit per call.
   */
  function AddToCart(lines: seq<Line>, product: ProductDoc): (r: seq<Line>)
    ensures Has(lines, product.id) ==>
      && |r| == |lines|
      && forall i :: 0 <= i < |lines| ==>
           r[i] == if lines[i].doc.id == product.id then lines[i].(quantity := lines[i].quantity + 1) else lines[i]
    ensures !Has(lines, product.id) ==> r == lines + [Line(product, 1)]
  {
    if Has(lines, product.id) then
      seq(|lines|, i requires 0 <= i < |lines| =>
        if lines[i].doc.id == product.id then lines[i].(quantity := lines[i].quantity + 1) else lines[i])
    else lines + [Line(product, 1)]
  }

  /** The test `item => item._id !== productId`. */
  function OtherId(id: Id): Line -> bool { (l: Line) => l.doc.id != id }

  /** removeFromCart: the lines for other ids, in their order. */
  function RemoveFromCart(lines: seq<Line>, id: Id): (r: seq<Line>)
    ensures !Has(r, id)
    ensures forall l :: l in r <==> l in lines && l.doc.id != id
    ensures !Has(lines, id) ==> r == lines
  {
    Lists.Filter(lines, OtherId(id))
  }

  /** With one line per id, removing the product at position k removes exactly that line and keeps the rest in order. */
  lemma {:induction false} RemoveKeepsOrder(lines: seq<Line>, id: Id, k: nat)
    requires UniqueIds(lines) && k < |lines| && lines[k].doc.id == id
    ensures RemoveFromCart(lines, id) == lines[..k] + lines[k + 1..]
  {
    forall j | 0 <= j < |lines| && j != k ensures OtherId(id)(lines[j]) {
      if j < k {
        assert lines[j].doc.id != lines[k].doc.id;
      } else {
        assert lines[k].doc.id != lines[j].doc.id;
      }
    }
    Lists.FilterDropsOne(lines, OtherId(id), k);
  }

  /** updateQuantity: the line for `id` gets `quantity`; nothing changes when there is none. */
  function UpdateQuantity(lines: seq<Line>, id: Id, quantity: int): (r: seq<Line>)
    ensures |r| == |lines|
    ensures forall i :: 0 <= i < |lines| ==> r[i].doc == lines[i].doc
    ensures forall i :: 0 <= i < |lines| ==> r[i].quantity == if lines[i].doc.id == id then quantity else lines[i].quantity
    ensures !Has(lines, id) ==> r == lines
  {
    seq(|lines|, i requires 0 <= i < |lines| => if lines[i].doc.id == id then lines[i].(quantity := quantity) else lines[i])
  }

  /** clearCart. */
  function ClearCart(): (r: seq<Line>)
    ensures |r| == 0
  {
    []
  }

  /** Every updater keeps one line per id. */
  lemma UpdatersKeepUniqueIds(lines: seq<Line>, product: ProductDoc, id: Id, quantity: int)
    requires UniqueIds(lines)
    ensures UniqueIds(AddToCart(lines, product))
    ensures UniqueIds(RemoveFromCart(lines, id))
    ensures UniqueIds(UpdateQuantity(lines, id, quantity))
    ensures UniqueIds(ClearCart())
  {
    var r := RemoveFromCart(lines, id);
    var keep := (l: Line) => l.doc.id != id;
    assert r == Lists.Filter(lines, keep);
    FilterKeepsUnique(lines, keep);
  }

  lemma {:induction false} FilterKeepsUnique(lines: seq<Line>, keep: Line -> bool)
    requires UniqueIds(lines)
    ensures UniqueIds(Lists.Filter(lines, keep))
  {
    if |lines| > 0 {
      FilterKeepsUnique(lines[1..], keep);
      var rest := Lists.Filter(lines[1..], keep);
      forall l | l in rest ensures l.doc.id != lines[0].doc.id {
        var k :| 0 <= k < |lines[1..]| && lines[1..][k] == l;
        assert lines[k + 1] == l;
      }
    }
  }

  /** With one line per id, adding a product raises its quantity by exactly 1. */
  lemma AddAddsOne(lines: seq<Line>, product: ProductDoc)
    requires UniqueIds(lines)
    ensures QuantityOf(AddToCart(lines, product), product.id) == QuantityOf(lines, product.id) + 1
  {
    var r := AddToCart(lines, product);
    UpdatersKeepUniqueIds(lines, product, product.id, 0);
    if Has(lines, product.id) {
      var i :| 0 <= i < |lines| && lines[i].doc.id == product.id;
      assert r[i].doc.id == product.id && r[i].quantity == lines[i].quantity + 1;
    } else {
      assert r[|lines|] == Line(product, 1);
    }
  }

  /** Adding a product leaves the quantity of every other id as it was. */
  lemma AddLeavesOthers(lines: seq<Line>, product: ProductDoc, other: Id)
    requires UniqueIds(lines) && other != product.id
    ensures QuantityOf(AddToCart(lines, product), other) == QuantityOf(lines, other)
  {
    var r := AddToCart(lines, product);
    UpdatersKeepUniqueIds(lines, product, other, 0);
    if Has(lines, other) {
      var j :| 0 <= j < |lines| && lines[j].doc.id == other;
      assert r[j] == lines[j];
    } else {
      assert !Has(r, other) by {
        forall j | 0 <= j < |r| ensures r[j].doc.id != other {
          if j < |lines| {
            assert r[j].doc.id == lines[j].doc.id;
          }
        }
      }
    }
  }

  /** Removing a product just added gives the cart back without that product's line. */
  lemma AddThenRemove(lines: seq<Line>, product: ProductDoc)
    ensures RemoveFromCart(AddToCart(lines, product), product.id) == RemoveFromCart(lines, product.id)
  {
    var r := AddToCart(lines, product);
    var keep := OtherId(product.id);
    if Has(lines, product.id) {
      FilterSameKept(lines, r, keep);
    } else {
      FilterAppendDropped(lines, Line(product, 1), keep);
    }
  }

  /** Two lists that agree wherever `keep` holds, and drop the same positions, filter to the same list. */
  lemma {:induction false} FilterSameKept(a: seq<Line>, b: seq<Line>, keep: Line -> bool)
    requires |a| == |b|
    requires forall i :: 0 <= i < |a| ==> keep(a[i]) == keep(b[i]) && (keep(a[i]) ==> a[i] == b[i])
    ensures Lists.Filter(a, keep) == Lists.Filter(b, keep)
  {
    if |a| > 0 {
      FilterSameKept(a[1..], b[1..], keep);
    }
  }

  lemma {:induction false} FilterAppendDropped(a: seq<Line>, x: Line, keep: Line -> bool)
    requires !keep(x)
    ensures Lists.Filter(a + [x], keep) == Lists.Filter(a, keep)
  {
    if |a| == 0 {
      assert Lists.Filter([x], keep) == [] + Lists.Filter([x][1..], keep);
    } else {
      assert (a + [x])[1..] == a[1..] + [x];
      FilterAppendDropped(a[1..], x, keep);
    }
  }
}
