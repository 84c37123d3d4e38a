/**
  The stock ledger of the inventory service (controller/product.controller.js): intake,
  sales that draw batches down one after the other, and reversals that put stock back.
  Quantities are real numbers.
*/
module StockLedger {
  import opened Wrappers

  datatype Batch = Batch(id: nat, product: int, quantity: real)

  /** before and after are bQuantity and aQuantity. */
  datatype Sale = Sale(id: nat, product: int, quantity: real, before: real, after: real)

  /** The stock of a product. */
  function Stock(batches: seq<Batch>, p: int): real {
    if batches == [] then 0.0
    else (if batches[0].product == p then batches[0].quantity else 0.0) + Stock(batches[1..], p)
  }

  function Sold(sales: seq<Sale>, p: int): real {
    if sales == [] then 0.0
    else (if sales[0].product == p then sales[0].quantity else 0.0) + Sold(sales[1..], p)
  }

  /** The batches of a product, in the order in which they are stored. */
  function Of(batches: seq<Batch>, p: int): seq<Batch> {
    if batches == [] then []
    else (if batches[0].product == p then [batches[0]] else []) + Of(batches[1..], p)
  }

  function Quantities(inv: seq<Batch>): (qs: seq<real>)
    ensures |qs| == |inv| && forall i :: 0 <= i < |inv| ==> qs[i] == inv[i].quantity
  {
    seq(|inv|, i requires 0 <= i < |inv| => inv[i].quantity)
  }

  function Sum(qs: seq<real>): real {
    if qs == [] then 0.0 else qs[0] + Sum(qs[1..])
  }

  // ------------------------------------------------------------------ drawing down

  /** The loop of a sale over the quantities of the batches: what they become. */
  function Draw(qs: seq<real>, wanted: real): (r: seq<real>)
    ensures |r| == |qs|
  {
    if qs == [] then []
    else if qs[0] <= 0.0 then [qs[0]] + Draw(qs[1..], wanted)
    else if wanted >= qs[0] then [0.0] + Draw(qs[1..], wanted - qs[0])
    else [qs[0] - wanted] + qs[1..]
  }

  ghost predicate NonNegative(qs: seq<real>) {
    forall i :: 0 <= i < |qs| ==> qs[i] >= 0.0
  }

  ghost predicate SomePositive(qs: seq<real>) {
    exists i :: 0 <= i < |qs| && qs[i] > 0.0
  }

  /** Nothing moves: a negative quantity is asked of batches that are all empty. */
  ghost predicate LostSale(qs: seq<real>, wanted: real) {
    wanted < 0.0 && !SomePositive(qs)
  }

  lemma PositiveRest(qs: seq<real>)
    requires qs != []
    ensures SomePositive(qs) <==> qs[0] > 0.0 || SomePositive(qs[1..])
  {
    if SomePositive(qs[1..]) {
      var i :| 0 <= i < |qs| - 1 && qs[1..][i] > 0.0;
      assert qs[i + 1] > 0.0;
    }
    if SomePositive(qs) {
      var i :| 0 <= i < |qs| && qs[i] > 0.0;
      assert i > 0 ==> qs[1..][i - 1] > 0.0;
    }
  }

  /** For every quantity up to the stock exactly that is taken, unless the sale is lost; batches do not become negative. */
  lemma {:induction false} DrawTakes(qs: seq<real>, wanted: real)
    requires wanted <= Sum(qs)
    ensures Sum(Draw(qs, wanted)) == Sum(qs) - if LostSale(qs, wanted) then 0.0 else wanted
    ensures NonNegative(qs) ==> NonNegative(Draw(qs, wanted))
  {
    if qs != [] {
      hide SomePositive;
      var rest := qs[1..];
      PositiveRest(qs);
      assert NonNegative(qs) ==> NonNegative(rest);
      if qs[0] <= 0.0 {
        DrawTakes(rest, wanted);
        DrawFirst(qs[0], Draw(rest, wanted));
      } else if wanted >= qs[0] {
        DrawTakes(rest, wanted - qs[0]);
        DrawFirst(0.0, Draw(rest, wanted - qs[0]));
      } else {
        DrawFirst(qs[0] - wanted, rest);
      }
    } else {
      assert !SomePositive(qs);
    }
  }

  lemma DrawFirst(q: real, drawn: seq<real>)
    ensures Sum([q] + drawn) == q + Sum(drawn) && (q >= 0.0 && NonNegative(drawn) ==> NonNegative([q] + drawn))
  {
    assert ([q] + drawn)[1..] == drawn;
  }

  /** The empty batches that the loop meets before it ends: it replies at each, and the second reply throws. */
  function Met(qs: seq<real>, wanted: real): nat {
    if qs == [] then 0
    else if qs[0] <= 0.0 then 1 + Met(qs[1..], wanted)
    else if wanted >= qs[0] then Met(qs[1..], wanted - qs[0])
    else 0
  }

  /** A negative quantity asked of one empty batch is recorded, and nothing moves. */
  lemma NegativeSaleLost()
    ensures LostSale([0.0], -1.0) && Met([0.0], -1.0) < 2 && -1.0 <= Sum([0.0]) && Draw([0.0], -1.0) == [0.0]
  {
    assert [0.0][1..] == [];
    assert forall i :: 0 <= i < 1 ==> [0.0][i] == 0.0;
  }

  /** There is stock for the sale behind two empty batches, and it is rolled back all the same; so is one that would be lost. */
  lemma TwoEmptyBatches()
    ensures Met([0.0, 0.0, 5.0], 3.0) == 2 && 3.0 <= Sum([0.0, 0.0, 5.0])
    ensures Met([0.0, 0.0], -1.0) == 2 && -1.0 <= Sum([0.0, 0.0])
  {
    assert [0.0, 0.0, 5.0][1..] == [0.0, 5.0] && [0.0, 5.0][1..] == [5.0] && [5.0][1..] == [];
    assert [0.0, 0.0][1..] == [0.0] && [0.0][1..] == [];
    assert Met([5.0], 3.0) == 0 && Met([0.0, 5.0], 3.0) == 1;
    assert Sum([5.0]) == 5.0 && Sum([0.0, 5.0]) == 5.0 && Sum([0.0]) == 0.0;
  }

  /** Without empty batches among them nothing is met. */
  lemma {:induction false} NothingMet(qs: seq<real>, wanted: real)
    requires forall i :: 0 <= i < |qs| ==> qs[i] > 0.0
    ensures Met(qs, wanted) == 0
  {
    if qs != [] {
      NothingMet(qs[1..], wanted - qs[0]);
    }
  }

  /**
    A prefix of the batches is emptied, at most one more is reduced, the others are left
    alone; a negative quantity makes the first batch that is not empty larger.
  */
  lemma {:induction false} DrawShape(qs: seq<real>, wanted: real) returns (k: nat)
    requires NonNegative(qs)
    ensures k <= |qs| && (forall i :: 0 <= i < k ==> Draw(qs, wanted)[i] == 0.0)
    ensures k < |qs| ==> 0.0 < Draw(qs, wanted)[k] && (wanted >= 0.0 ==> Draw(qs, wanted)[k] <= qs[k])
    ensures wanted < 0.0 ==> (forall i :: 0 <= i < k ==> qs[i] == 0.0) && (k < |qs| ==> Draw(qs, wanted)[k] == qs[k] - wanted)
    ensures forall i :: k < i < |qs| ==> Draw(qs, wanted)[i] == qs[i]
  {
    if qs == [] {
      k := 0;
    } else if qs[0] <= 0.0 || wanted >= qs[0] {
      var rest, left := qs[1..], if qs[0] <= 0.0 then wanted else wanted - qs[0];
      var j := DrawShape(rest, left);
      k := j + 1;
      assert qs[0] >= 0.0 && Draw(qs, wanted) == [0.0] + Draw(rest, left);
      ShapeCons(qs, Draw(rest, left), j, wanted);
    } else {
      k := 0;
    }
  }

  lemma ShapeCons(qs: seq<real>, d: seq<real>, j: nat, wanted: real)
    requires qs != [] && |d| == |qs| - 1 && j <= |d| && (forall i :: 0 <= i < j ==> d[i] == 0.0)
    requires j < |d| ==> 0.0 < d[j] && (wanted >= 0.0 ==> d[j] <= qs[1..][j])
    requires wanted < 0.0 ==> qs[0] == 0.0 && (forall i :: 0 <= i < j ==> qs[1..][i] == 0.0) && (j < |d| ==> d[j] == qs[1..][j] - wanted)
    requires forall i :: j < i < |d| ==> d[i] == qs[1..][i]
    ensures var r := [0.0] + d;
            && (forall i :: 0 <= i < j + 1 ==> r[i] == 0.0)
            && (j + 1 < |qs| ==> 0.0 < r[j + 1] && (wanted >= 0.0 ==> r[j + 1] <= qs[j + 1]))
            && (wanted < 0.0 ==> (forall i :: 0 <= i < j + 1 ==> qs[i] == 0.0) && (j + 1 < |qs| ==> r[j + 1] == qs[j + 1] - wanted))
            && forall i :: j + 1 < i < |qs| ==> r[i] == qs[i]
  {
    var r := [0.0] + d;
    forall i | j + 1 < i < |qs|
      ensures r[i] == qs[i]
    {
      assert d[i - 1] == qs[1..][i - 1];
    }
    assert forall i :: 0 < i < |qs| ==> qs[i] == qs[1..][i - 1];
  }

  // ------------------------------------------------------------------ the collections

  /** Document ids identify documents. */
  ghost predicate Unique(batches: seq<Batch>) {
    forall i, j :: 0 <= i < j < |batches| ==> batches[i].id != batches[j].id
  }

  /** deleteOne({_id}) */
  function Remove(batches: seq<Batch>, id: nat): seq<Batch> {
    if batches == [] then [] else if batches[0].id == id then batches[1..] else [batches[0]] + Remove(batches[1..], id)
  }

  /** updateOne({_id}, {$set: {quantity}}) */
  function Update(batches: seq<Batch>, id: nat, q: real): seq<Batch> {
    if batches == [] then []
    else if batches[0].id == id then [batches[0].(quantity := q)] + batches[1..]
    else [batches[0]] + Update(batches[1..], id, q)
  }

  /** The amount a batch adds to the stock of p. */
  function Share(b: Batch, p: int): real {
    if b.product == p then b.quantity else 0.0
  }

  lemma UniqueRest(batches: seq<Batch>)
    requires Unique(batches) && batches != []
    ensures Unique(batches[1..]) && forall x :: x in batches[1..] ==> x.id != batches[0].id
  {}

  lemma UniqueCons(b: Batch, rest: seq<Batch>)
    requires Unique(rest) && forall x :: x in rest ==> x.id != b.id
    ensures Unique([b] + rest)
  {}

  lemma {:induction false} UpdateIn(batches: seq<Batch>, b: Batch, q: real)
    requires Unique(batches) && b in batches
    ensures var r := Update(batches, b.id, q);
            Unique(r) && forall x :: x in r <==> (x in batches && x != b) || x == b.(quantity := q)
  {
    var rest := batches[1..];
    UniqueRest(batches);
    assert batches == [batches[0]] + rest;
    if batches[0].id == b.id {
      assert batches[0] == b;
      UniqueCons(b.(quantity := q), rest);
    } else {
      assert b in rest;
      UpdateIn(rest, b, q);
      var r := Update(rest, b.id, q);
      forall x | x in r
        ensures x.id != batches[0].id
      {
        assert x in rest || x == b.(quantity := q);
      }
      UniqueCons(batches[0], r);
    }
  }

  lemma {:induction false} UpdateStock(batches: seq<Batch>, b: Batch, q: real, p: int)
    requires Unique(batches) && b in batches
    ensures Stock(Update(batches, b.id, q), p) == Stock(batches, p) - Share(b, p) + Share(b.(quantity := q), p)
  {
    UniqueRest(batches);
    var rest := batches[1..];
    assert batches == [batches[0]] + rest;
    if batches[0].id == b.id {
      assert batches[0] == b;
      assert ([b.(quantity := q)] + rest)[1..] == rest;
    } else {
      assert b in rest;
      UpdateStock(rest, b, q, p);
      assert ([batches[0]] + Update(rest, b.id, q))[1..] == Update(rest, b.id, q);
    }
  }

  lemma {:induction false} OfMembers(batches: seq<Batch>, p: int)
    requires Unique(batches)
    ensures Unique(Of(batches, p)) && forall x :: x in Of(batches, p) <==> x in batches && x.product == p
  {
    if batches != [] {
      var first, rest := batches[0], batches[1..];
      UniqueRest(batches);
      OfMembers(rest, p);
      assert batches == [first] + rest;
      if first.product == p {
        UniqueCons(first, Of(rest, p));
      } else {
        assert [] + Of(rest, p) == Of(rest, p);
      }
    }
  }

  lemma {:induction false} OfStock(batches: seq<Batch>, p: int)
    ensures Stock(batches, p) == Sum(Quantities(Of(batches, p)))
  {
    if batches != [] {
      var first, inv := batches[0], Of(batches[1..], p);
      OfStock(batches[1..], p);
      if first.product == p {
        assert Quantities([first] + inv)[1..] == Quantities(inv);
      } else {
        assert [] + inv == inv;
      }
    }
  }

  lemma {:induction false} StockSnoc(batches: seq<Batch>, b: Batch, p: int)
    ensures Stock(batches + [b], p) == Stock(batches, p) + Share(b, p)
  {
    if batches == [] {
      assert batches + [b] == [b] && [b][1..] == [];
    } else {
      assert (batches + [b])[1..] == batches[1..] + [b];
      StockSnoc(batches[1..], b, p);
    }
  }

  lemma {:induction false} SoldSnoc(sales: seq<Sale>, s: Sale, p: int)
    ensures Sold(sales + [s], p) == Sold(sales, p) + if s.product == p then s.quantity else 0.0
  {
    if sales == [] {
      assert sales + [s] == [s] && [s][1..] == [];
    } else {
      assert (sales + [s])[1..] == sales[1..] + [s];
      SoldSnoc(sales[1..], s, p);
    }
  }

  ghost predicate AllNonNegative(batches: seq<Batch>) {
    forall x {:trigger x in batches} :: x in batches ==> x.quantity >= 0.0
  }

  ghost predicate IdsBelow(batches: seq<Batch>, n: nat) {
    forall x {:trigger x in batches} :: x in batches ==> x.id < n
  }

  lemma AddBatch(batches: seq<Batch>, b: Batch, n: nat)
    requires Unique(batches) && IdsBelow(batches, n) && b.id == n
    ensures Unique(batches + [b]) && IdsBelow(batches + [b], n + 1)
    ensures AllNonNegative(batches) && b.quantity >= 0.0 ==> AllNonNegative(batches + [b])
  {
    forall i | 0 <= i < |batches|
      ensures batches[i].id < n
    {
      assert batches[i] in batches;
    }
  }

  // ------------------------------------------------------------ a sale in the store

  /** The stored batches after a sale: emptied ones are gone, at most one is reduced. */
  function Drawn(batches: seq<Batch>, p: int, wanted: real): seq<Batch> {
    if batches == [] then []
    else
      var b, rest := batches[0], batches[1..];
      if b.product != p || b.quantity <= 0.0 then [b] + Drawn(rest, p, wanted)
      else if wanted >= b.quantity then Drawn(rest, p, wanted - b.quantity)
      else [b.(quantity := b.quantity - wanted)] + rest
  }

  /** The batches with new quantities, without those that were emptied. */
  function Survivors(inv: seq<Batch>, qs: seq<real>): seq<Batch>
    requires |qs| == |inv|
  {
    if inv == [] then []
    else (if inv[0].quantity > 0.0 && qs[0] == 0.0 then [] else [inv[0].(quantity := qs[0])]) + Survivors(inv[1..], qs[1..])
  }

  lemma {:induction false} SurvivorsSame(inv: seq<Batch>)
    ensures Survivors(inv, Quantities(inv)) == inv
  {
    if inv != [] {
      SurvivorsSame(inv[1..]);
      assert Quantities(inv)[1..] == Quantities(inv[1..]);
    }
  }

  lemma DrawnCons(b: Batch, rest: seq<Batch>, p: int, wanted: real)
    ensures Drawn([b] + rest, p, wanted)
         == if b.product != p || b.quantity <= 0.0 then [b] + Drawn(rest, p, wanted)
            else if wanted >= b.quantity then Drawn(rest, p, wanted - b.quantity)
            else [b.(quantity := b.quantity - wanted)] + rest
  {
    assert ([b] + rest)[1..] == rest;
  }

  lemma SurvivorsCons(b: Batch, q: real, inv: seq<Batch>, qs: seq<real>)
    requires |qs| == |inv|
    ensures Survivors([b] + inv, [q] + qs)
         == (if b.quantity > 0.0 && q == 0.0 then [] else [b.(quantity := q)]) + Survivors(inv, qs)
  {
    assert ([b] + inv)[1..] == inv && ([q] + qs)[1..] == qs;
  }

  lemma QuantitiesCons(b: Batch, inv: seq<Batch>)
    ensures Quantities([b] + inv) == [b.quantity] + Quantities(inv)
  {}

  /** Of the product what the draw leaves of each batch, in order; */
  lemma {:induction false} DrawnOf(batches: seq<Batch>, p: int, wanted: real)
    ensures Of(Drawn(batches, p, wanted), p) == Survivors(Of(batches, p), Draw(Quantities(Of(batches, p)), wanted))
    decreases |batches|, 0
  {
    if batches != [] {
      hide Of, Drawn, Survivors, Draw;
      var b, rest := batches[0], batches[1..];
      assert batches == [b] + rest;
      var inv := Of(rest, p);
      DrawnCons(b, rest, p, wanted);
      OfCons(b, rest, p);
      if b.product != p {
        DrawnOf(rest, p, wanted);
        OfCons(b, Drawn(rest, p, wanted), p);
        assert [] + inv == inv;
      } else {
        QuantitiesCons(b, inv);
        DrawCons(b.quantity, Quantities(inv), wanted);
        DrawnOfFirst(b, rest, p, wanted);
      }
    }
  }

  lemma DrawnOfFirst(b: Batch, rest: seq<Batch>, p: int, wanted: real)
    requires b.product == p
    ensures var inv := Of(rest, p);
            Of(Drawn([b] + rest, p, wanted), p)
            == Survivors([b] + inv, if b.quantity <= 0.0 then [b.quantity] + Draw(Quantities(inv), wanted)
                                    else if wanted >= b.quantity then [0.0] + Draw(Quantities(inv), wanted - b.quantity)
                                    else [b.quantity - wanted] + Quantities(inv))
    decreases |rest|, 1
  {
    hide Of, Drawn, Survivors, Draw;
    var inv := Of(rest, p);
    DrawnCons(b, rest, p, wanted);
    if b.quantity <= 0.0 {
      DrawnOf(rest, p, wanted);
      OfCons(b, Drawn(rest, p, wanted), p);
      SurvivorsCons(b, b.quantity, inv, Draw(Quantities(inv), wanted));
    } else if wanted >= b.quantity {
      DrawnOf(rest, p, wanted - b.quantity);
      SurvivorsCons(b, 0.0, inv, Draw(Quantities(inv), wanted - b.quantity));
      assert [] + Survivors(inv, Draw(Quantities(inv), wanted - b.quantity)) == Survivors(inv, Draw(Quantities(inv), wanted - b.quantity));
    } else {
      OfCons(b.(quantity := b.quantity - wanted), rest, p);
      SurvivorsCons(b, b.quantity - wanted, inv, Quantities(inv));
      SurvivorsSame(inv);
    }
  }

  /** of other products everything. */
  lemma {:induction false} DrawnOthers(batches: seq<Batch>, p: int, wanted: real, q: int)
    requires q != p
    ensures Of(Drawn(batches, p, wanted), q) == Of(batches, q)
    decreases |batches|
  {
    if batches != [] {
      hide Of, Drawn;
      var b, rest := batches[0], batches[1..];
      assert batches == [b] + rest;
      var left := if b.product != p || b.quantity <= 0.0 then wanted else wanted - b.quantity;
      DrawnCons(b, rest, p, wanted);
      DrawnOthers(rest, p, left, q);
      OfCons(b, rest, q);
      OfCons(b, Drawn(rest, p, left), q);
      OfCons(b.(quantity := b.quantity - wanted), rest, q);
      assert [] + Of(rest, q) == Of(rest, q);
    }
  }

  lemma OfCons(b: Batch, rest: seq<Batch>, q: int)
    ensures Of([b] + rest, q) == (if b.product == q then [b] else []) + Of(rest, q)
  {
    assert ([b] + rest)[1..] == rest;
  }

  lemma {:induction false} DrawnStock(batches: seq<Batch>, p: int, wanted: real, q: int)
    ensures Stock(Drawn(batches, p, wanted), q)
         == if q == p then Sum(Draw(Quantities(Of(batches, p)), wanted)) else Stock(batches, q)
    decreases |batches|
  {
    if batches != [] {
      hide Of, Drawn, Draw, Stock, Sum;
      var b, rest := batches[0], batches[1..];
      assert batches == [b] + rest;
      var inv := Of(rest, p);
      var left := if b.product != p || b.quantity <= 0.0 then wanted else wanted - b.quantity;
      DrawnCons(b, rest, p, wanted);
      OfCons(b, rest, p);
      StockCons(b, rest, q);
      DrawnStock(rest, p, left, q);
      if b.product != p || b.quantity <= 0.0 {
        StockCons(b, Drawn(rest, p, wanted), q);
      } else if wanted < b.quantity {
        StockCons(b.(quantity := b.quantity - wanted), rest, q);
        OfStock(rest, p);
      }
      if b.product == p {
        QuantitiesCons(b, inv);
        DrawCons(b.quantity, Quantities(inv), wanted);
        DrawFirst(if b.quantity <= 0.0 then b.quantity else 0.0, Draw(Quantities(inv), left));
        DrawFirst(b.quantity - wanted, Quantities(inv));
      } else {
        assert [] + inv == inv;
      }
    } else {
      assert Quantities([]) == [];
    }
  }

  lemma StockCons(b: Batch, rest: seq<Batch>, q: int)
    ensures Stock([b] + rest, q) == Share(b, q) + Stock(rest, q)
  {
    assert ([b] + rest)[1..] == rest;
  }

  /** x is one of the batches, or one of them with another quantity that is positive. */
  ghost predicate From(batches: seq<Batch>, x: Batch) {
    exists y :: y in batches && y.id == x.id && (x == y || x.quantity > 0.0)
  }

  lemma FromRest(b: Batch, rest: seq<Batch>, x: Batch)
    requires From(rest, x)
    ensures From([b] + rest, x)
  {
    var y :| y in rest && y.id == x.id && (x == y || x.quantity > 0.0);
    assert y in [b] + rest;
  }

  lemma FromFirst(b: Batch, rest: seq<Batch>, x: Batch)
    requires (x.id == b.id && (x == b || x.quantity > 0.0)) || x in rest
    ensures From([b] + rest, x)
  {
    assert b in [b] + rest;
    assert x in rest ==> x in [b] + rest;
  }

  lemma {:induction false} DrawnFrom(batches: seq<Batch>, p: int, wanted: real, x: Batch)
    requires x in Drawn(batches, p, wanted)
    ensures From(batches, x)
    decreases |batches|
  {
    var b, rest := batches[0], batches[1..];
    assert batches == [b] + rest;
    hide From, Drawn;
    DrawnCons(b, rest, p, wanted);
    var left := if b.product != p || b.quantity <= 0.0 then wanted else wanted - b.quantity;
    if x == b || x in rest || (b.product == p && x == b.(quantity := b.quantity - wanted) && wanted < b.quantity) {
      FromFirst(b, rest, x);
    } else {
      DrawnFrom(rest, p, left, x);
      FromRest(b, rest, x);
    }
  }

  lemma {:induction false} DrawnUnique(batches: seq<Batch>, p: int, wanted: real)
    requires Unique(batches)
    ensures Unique(Drawn(batches, p, wanted))
    decreases |batches|
  {
    if batches != [] {
      hide Unique, Drawn;
      var b, rest := batches[0], batches[1..];
      UniqueRest(batches);
      assert batches == [b] + rest;
      var left := if b.product != p || b.quantity <= 0.0 then wanted else wanted - b.quantity;
      DrawnCons(b, rest, p, wanted);
      DrawnUnique(rest, p, left);
      var db := Drawn(rest, p, left);
      forall x | x in db
        ensures x.id != b.id
      {
        DrawnFrom(rest, p, left, x);
      }
      UniqueCons(b, db);
      UniqueCons(b.(quantity := b.quantity - wanted), rest);
    }
  }

  /** Ids come from before, and no batch becomes negative. */
  lemma DrawnIds(batches: seq<Batch>, p: int, wanted: real, n: nat)
    requires Unique(batches) && IdsBelow(batches, n)
    ensures var db := Drawn(batches, p, wanted);
            Unique(db) && IdsBelow(db, n) && (AllNonNegative(batches) ==> AllNonNegative(db))
  {
    hide Drawn, Unique;
    DrawnUnique(batches, p, wanted);
    var db := Drawn(batches, p, wanted);
    forall x | x in db
      ensures x.id < n && (AllNonNegative(batches) ==> x.quantity >= 0.0)
    {
      DrawnFrom(batches, p, wanted, x);
      var y :| y in batches && y.id == x.id && (x == y || x.quantity > 0.0);
    }
  }

  /** Where the loop is: the quantities so far, and what drawing the rest will make of them. */
  ghost predicate Drawing(all: seq<real>, wanted: real, now: seq<real>, i: nat, left: real) {
    && |now| == |all| && i <= |all| && now[i..] == all[i..]
    && now[..i] + Draw(all[i..], left) == Draw(all, wanted)
  }

  lemma DrawingStart(all: seq<real>, wanted: real)
    ensures Drawing(all, wanted, all, 0, wanted)
  {
    assert all[..0] == [] && all[0..] == all && [] + Draw(all, wanted) == Draw(all, wanted);
  }

  lemma DrawCons(q: real, rest: seq<real>, left: real)
    ensures Draw([q] + rest, left) ==
            if q <= 0.0 then [q] + Draw(rest, left)
            else if left >= q then [0.0] + Draw(rest, left - q)
            else [q - left] + rest
  {
    assert ([q] + rest)[1..] == rest;
  }

  /** One batch skipped, emptied, or reduced. */
  lemma DrawingStep(all: seq<real>, wanted: real, now: seq<real>, i: nat, left: real)
    requires Drawing(all, wanted, now, i, left) && i < |all|
    ensures now[i] == all[i]
    ensures all[i] <= 0.0 ==> Drawing(all, wanted, now, i + 1, left)
    ensures all[i] > 0.0 && left >= all[i] ==> Drawing(all, wanted, now[i := 0.0], i + 1, left - all[i])
    ensures all[i] > 0.0 && left < all[i] ==> now[i := all[i] - left] == Draw(all, wanted)
  {
    hide Draw;
    var rest := all[i + 1..];
    assert all[i..] == [all[i]] + rest;
    assert now[i..][0] == now[i] && now[i + 1..] == rest by {
      assert now[i..][1..] == now[i + 1..] && all[i..][1..] == rest;
    }
    DrawCons(all[i], rest, left);
    if all[i] <= 0.0 {
      Placed(now, i, all[i], Draw(rest, left));
    } else if left >= all[i] {
      Placed(now, i, 0.0, Draw(rest, left - all[i]));
    } else {
      Placed(now, i, all[i] - left, rest);
    }
  }

  /** Setting position i, and what then comes before and after it. */
  lemma Placed(now: seq<real>, i: nat, x: real, d: seq<real>)
    requires i < |now|
    ensures var set' := now[i := x];
            && set'[i + 1..] == now[i + 1..] && set'[..i + 1] + d == now[..i] + ([x] + d)
            && now[..i] + ([x] + now[i + 1..]) == set'
            && (x == now[i] ==> set' == now)
  {}

  lemma DrawingEnd(all: seq<real>, wanted: real, now: seq<real>, left: real)
    requires Drawing(all, wanted, now, |all|, left)
    ensures now == Draw(all, wanted)
  {
    assert now[..|all|] == now && all[|all|..] == [] && now + [] == now;
  }

  /** Where the loop is: the empty batches met so far, and those it will meet. */
  ghost predicate Meeting(all: seq<real>, wanted: real, i: nat, left: real, met: nat) {
    i <= |all| && Met(all, wanted) == met + Met(all[i..], left)
  }

  lemma MeetingStart(all: seq<real>, wanted: real)
    ensures Meeting(all, wanted, 0, wanted, 0)
  {
    assert all[0..] == all;
  }

  lemma MeetingStep(all: seq<real>, wanted: real, i: nat, left: real, met: nat)
    requires Meeting(all, wanted, i, left, met) && i < |all|
    ensures if all[i] <= 0.0 then Meeting(all, wanted, i + 1, left, met + 1)
            else if left >= all[i] then Meeting(all, wanted, i + 1, left - all[i], met)
            else Met(all, wanted) == met
  {
    assert all[i..][1..] == all[i + 1..];
  }

  /** Only quantities have changed. */
  ghost predicate SameBatches(a: seq<Batch>, b: seq<Batch>) {
    |a| == |b| && forall j :: 0 <= j < |a| ==> b[j] == a[j].(quantity := b[j].quantity)
  }

  /** Where the loop of recordSales is, but for the store. */
  ghost predicate Halfway(wanted: real, inv0: seq<Batch>, inv: seq<Batch>, i: nat, left: real, replied: bool, emptied: bool) {
    && i <= |inv| == |inv0| && SameBatches(inv0, inv)
    && Drawing(Quantities(inv0), wanted, Quantities(inv), i, left)
    && Meeting(Quantities(inv0), wanted, i, left, if replied then 1 else 0)
    && (i == 0 ==> !emptied && left == wanted)
    && (i == 1 ==> OneGone(inv0, wanted, emptied))
  }

  /** A single batch is gone if the sale takes all of it. */
  ghost predicate OneGone(inv0: seq<Batch>, wanted: real, emptied: bool) {
    inv0 != [] && (emptied <==> 0.0 < inv0[0].quantity <= wanted)
  }

  lemma HalfwayStart(wanted: real, inv: seq<Batch>)
    ensures Halfway(wanted, inv, inv, 0, wanted, false, false)
  {
    DrawingStart(Quantities(inv), wanted);
    MeetingStart(Quantities(inv), wanted);
  }

  lemma HalfwayStep(wanted: real, inv0: seq<Batch>, inv: seq<Batch>, i: nat, left: real, replied: bool, emptied: bool)
    requires Halfway(wanted, inv0, inv, i, left, replied, emptied) && i < |inv|
    ensures inv[i] == inv0[i]
    ensures var q := inv[i].quantity;
            if q <= 0.0 then
              if replied then Met(Quantities(inv0), wanted) >= 2 else Halfway(wanted, inv0, inv, i + 1, left, true, emptied)
            else if left >= q then
              Halfway(wanted, inv0, inv[i := inv[i].(quantity := 0.0)], i + 1, left - q, replied, true)
            else
              var last := inv[i := inv[i].(quantity := q - left)];
              && Quantities(last) == Draw(Quantities(inv0), wanted) && SameBatches(inv0, last)
              && Met(Quantities(inv0), wanted) < 2 && (|inv0| == 1 ==> OneGone(inv0, wanted, emptied))
  {
    hide Drawing, Meeting, Draw, Met, SameBatches;
    var all := Quantities(inv0);
    var q := inv[i].quantity;
    DrawingStep(all, wanted, Quantities(inv), i, left);
    StillSame(inv0, inv, i);
    MeetingStep(all, wanted, i, left, if replied then 1 else 0);
    if q <= 0.0 {
      if replied {
        AtLeast(all, wanted, i + 1, left, 2);
      }
    } else {
      SetQuantity(inv0, inv, i, if left >= q then 0.0 else q - left);
    }
  }

  lemma StillSame(inv0: seq<Batch>, inv: seq<Batch>, i: nat)
    requires SameBatches(inv0, inv) && i < |inv| && inv[i].quantity == inv0[i].quantity
    ensures inv[i] == inv0[i]
  {}

  lemma HalfwayEnd(wanted: real, inv0: seq<Batch>, inv: seq<Batch>, i: nat, left: real, replied: bool, emptied: bool)
    requires Halfway(wanted, inv0, inv, i, left, replied, emptied) && i == |inv|
    ensures Quantities(inv) == Draw(Quantities(inv0), wanted) && SameBatches(inv0, inv)
    ensures Met(Quantities(inv0), wanted) < 2 && (|inv0| == 1 ==> OneGone(inv0, wanted, emptied))
  {
    DrawingEnd(Quantities(inv0), wanted, Quantities(inv), left);
    MeetingEnd(Quantities(inv0), wanted, left, if replied then 1 else 0);
  }

  lemma SetQuantity(inv0: seq<Batch>, inv: seq<Batch>, i: nat, q: real)
    requires i < |inv| && SameBatches(inv0, inv)
    ensures var left := inv[i := inv[i].(quantity := q)];
            Quantities(left) == Quantities(inv)[i := q] && SameBatches(inv0, left)
  {}

  lemma AtLeast(all: seq<real>, wanted: real, i: nat, left: real, met: nat)
    requires Meeting(all, wanted, i, left, met)
    ensures Met(all, wanted) >= met
  {}

  lemma MeetingEnd(all: seq<real>, wanted: real, left: real, met: nat)
    requires Meeting(all, wanted, |all|, left, met)
    ensures Met(all, wanted) == met
  {}

  /** The product had one batch, and the sale takes all of it. */
  predicate LastGone(inv: seq<Batch>, wanted: real) {
    |inv| == 1 && 0.0 < inv[0].quantity <= wanted
  }

  // --------------------------------------------------------------- the loop of a sale

  /** Up to the first batch of the product nothing changes. */
  lemma {:induction false} FirstBatch(suf: seq<Batch>, p: int, wanted: real) returns (k: nat)
    requires Of(suf, p) != []
    ensures k < |suf| && suf[k].product == p && suf[k] == Of(suf, p)[0] && Of(suf[k + 1..], p) == Of(suf, p)[1..]
    ensures Drawn(suf, p, wanted) == suf[..k] + Drawn(suf[k..], p, wanted)
    decreases |suf|
  {
    var b, rest := suf[0], suf[1..];
    assert suf == [b] + rest;
    hide Of, Drawn;
    OfCons(b, rest, p);
    if b.product == p {
      k := 0;
      assert suf[0..] == suf && suf[..0] == [];
    } else {
      assert [] + Of(rest, p) == Of(rest, p);
      DrawnCons(b, rest, p, wanted);
      var j := FirstBatch(rest, p, wanted);
      k := j + 1;
      SliceCons(b, rest, j, Drawn(rest[j..], p, wanted));
    }
  }

  lemma SliceCons(b: Batch, rest: seq<Batch>, j: nat, d: seq<Batch>)
    requires j < |rest|
    ensures var all := [b] + rest;
            && all[j + 1] == rest[j] && all[j + 1..] == rest[j..] && all[j + 2..] == rest[j + 1..]
            && all[..j + 1] + d == [b] + (rest[..j] + d)
  {}

  lemma {:induction false} NothingDrawn(suf: seq<Batch>, p: int, wanted: real)
    requires Of(suf, p) == []
    ensures Drawn(suf, p, wanted) == suf
  {
    if suf != [] {
      NothingDrawn(suf[1..], p, wanted);
    }
  }

  lemma {:induction false} RemoveAt(x: seq<Batch>, b: Batch, y: seq<Batch>)
    requires forall i :: 0 <= i < |x| ==> x[i].id != b.id
    ensures Remove(x + [b] + y, b.id) == x + y
  {
    var all := x + [b] + y;
    if x == [] {
      assert all[1..] == y && x + y == y;
    } else {
      assert all[1..] == x[1..] + [b] + y;
      RemoveAt(x[1..], b, y);
    }
  }

  lemma {:induction false} UpdateAt(x: seq<Batch>, b: Batch, y: seq<Batch>, q: real)
    requires forall i :: 0 <= i < |x| ==> x[i].id != b.id
    ensures Update(x + [b] + y, b.id, q) == x + [b.(quantity := q)] + y
  {
    var all := x + [b] + y;
    if x == [] {
      assert all[1..] == y;
    } else {
      assert all[1..] == x[1..] + [b] + y;
      UpdateAt(x[1..], b, y, q);
    }
  }

  /** The store during the loop: the batches dealt with, and what drawing the rest will make of them. */
  ghost predicate Selling(db: seq<Batch>, start: seq<Batch>, pre: seq<Batch>, rest: seq<Batch>, p: int, wanted: real, left: real) {
    Unique(db) && db == pre + rest && Drawn(start, p, wanted) == pre + Drawn(rest, p, left)
  }

  /** The next batch of the product: skipped, removed, or reduced. */
  lemma SellingStep(db: seq<Batch>, start: seq<Batch>, pre: seq<Batch>, rest: seq<Batch>, p: int, wanted: real, left: real)
    returns (gone: seq<Batch>, more: seq<Batch>)
    requires Selling(db, start, pre, rest, p, wanted, left) && Of(rest, p) != []
    ensures Of(more, p) == Of(rest, p)[1..]
    ensures var b := Of(rest, p)[0];
            if b.quantity <= 0.0 then Selling(db, start, gone + [b], more, p, wanted, left)
            else if left >= b.quantity then Selling(Remove(db, b.id), start, gone, more, p, wanted, left - b.quantity)
            else Update(db, b.id, b.quantity - left) == Drawn(start, p, wanted)
  {
    hide Of, Drawn, Remove, Update, Unique;
    var k := FirstBatch(rest, p, left);
    var b := rest[k];
    more, gone := rest[k + 1..], pre + rest[..k];
    assert rest[k..] == [b] + more && db == gone + [b] + more;
    DrawnCons(b, more, p, left);
    BatchAt(gone, b, more);
    RemoveAt(gone, b, more);
    UpdateAt(gone, b, more, b.quantity - left);
    Regroup(pre, rest[..k], b, Drawn(more, p, left));
    Regroup(pre, rest[..k], b.(quantity := b.quantity - left), more);
  }

  lemma Regroup(pre: seq<Batch>, others: seq<Batch>, b: Batch, d: seq<Batch>)
    ensures pre + (others + ([b] + d)) == pre + others + [b] + d
  {}

  lemma BatchAt(x: seq<Batch>, b: Batch, y: seq<Batch>)
    requires Unique(x + [b] + y)
    ensures (forall i :: 0 <= i < |x| ==> x[i].id != b.id) && Unique(x + y)
  {
    var all := x + [b] + y;
    forall i | 0 <= i < |x|
      ensures x[i].id != b.id
    {
      assert all[i] == x[i] && all[|x|] == b;
    }
    UniqueWithout(x, b, y);
  }

  lemma UniqueWithout(x: seq<Batch>, b: Batch, y: seq<Batch>)
    requires Unique(x + [b] + y)
    ensures Unique(x + y)
  {
    var all := x + [b] + y;
    assert forall i :: 0 <= i < |x + y| ==> (x + y)[i] == all[if i < |x| then i else i + 1];
  }

  lemma Sold1(sales: seq<Sale>, s: Sale)
    ensures forall q {:trigger Sold(sales + [s], q)} :: Sold(sales + [s], q) == Sold(sales, q) + if s.product == q then s.quantity else 0.0
  {
    forall q
      ensures Sold(sales + [s], q) == Sold(sales, q) + if s.product == q then s.quantity else 0.0
    {
      SoldSnoc(sales, s, q);
    }
  }

  // ---------------------------------------------------------------------- reversals

  /** findById */
  function FindSale(sales: seq<Sale>, id: nat): Option<Sale> {
    if sales == [] then None else if sales[0].id == id then Some(sales[0]) else FindSale(sales[1..], id)
  }

  /** findByIdAndDelete */
  function WithoutSale(sales: seq<Sale>, id: nat): seq<Sale> {
    if sales == [] then [] else if sales[0].id == id then sales[1..] else [sales[0]] + WithoutSale(sales[1..], id)
  }

  lemma {:induction false} FoundSale(sales: seq<Sale>, id: nat)
    requires FindSale(sales, id).Some?
    ensures FindSale(sales, id).value in sales && forall s :: s in WithoutSale(sales, id) ==> s in sales
    ensures forall q {:trigger Sold(WithoutSale(sales, id), q)} ::
              Sold(WithoutSale(sales, id), q) == Sold(sales, q) - SaleShare(FindSale(sales, id).value, q)
  {
    if sales[0].id != id {
      FoundSale(sales[1..], id);
      var rest := WithoutSale(sales[1..], id);
      assert ([sales[0]] + rest)[1..] == rest;
    }
  }

  function SaleShare(s: Sale, q: int): real {
    if s.product == q then s.quantity else 0.0
  }

  /** Stock put back into one batch. */
  lemma PutBack(batches: seq<Batch>, b: Batch, x: real, n: nat)
    requires Unique(batches) && IdsBelow(batches, n) && b in batches
    ensures var db := Update(batches, b.id, x);
            && Unique(db) && IdsBelow(db, n) && (AllNonNegative(batches) && x >= 0.0 ==> AllNonNegative(db))
            && forall q {:trigger Stock(db, q)} :: Stock(db, q) == Stock(batches, q) + if b.product == q then x - b.quantity else 0.0
  {
    hide Stock;
    UpdateIn(batches, b, x);
    var db := Update(batches, b.id, x);
    forall q
      ensures Stock(db, q) == Stock(batches, q) + if b.product == q then x - b.quantity else 0.0
    {
      UpdateStock(batches, b, x, q);
    }
  }

  /** The store after these sales have gone back. */
  ghost predicate Returned(start: seq<Batch>, db: seq<Batch>, sales: seq<Sale>, n: nat) {
    && Unique(start) && Unique(db) && IdsBelow(db, n)
    && (AllNonNegative(start) && NonNegativeSales(sales) ==> AllNonNegative(db))
    && (forall q {:trigger Stock(db, q)} :: Stock(db, q) == Stock(start, q) + Sold(sales, q))
    && (forall q {:trigger HasProduct(db, q)} :: HasProduct(db, q) <==> HasProduct(start, q))
  }

  ghost predicate NonNegativeSales(sales: seq<Sale>) {
    forall k :: 0 <= k < |sales| ==> sales[k].quantity >= 0.0
  }

  lemma NonNegativeSnoc(sales: seq<Sale>, s: Sale)
    ensures NonNegativeSales(sales + [s]) ==> NonNegativeSales(sales) && s.quantity >= 0.0
  {
    var more := sales + [s];
    assert more[|sales|] == s && forall k :: 0 <= k < |sales| ==> more[k] == sales[k];
  }

  ghost predicate HasProduct(batches: seq<Batch>, q: int) {
    exists x :: x in batches && x.product == q
  }

  lemma NothingBack(batches: seq<Batch>, sales: seq<Sale>, n: nat)
    requires Unique(batches) && IdsBelow(batches, n)
    ensures Returned(batches, batches, sales[..0], n)
  {
    forall q
      ensures Stock(batches, q) == Stock(batches, q) + Sold(sales[..0], q)
    {
      assert Sold(sales[..0], q) == 0.0;
    }
  }

  lemma SameProducts(start: seq<Batch>, db: seq<Batch>, sales: seq<Sale>, n: nat, q: int)
    requires Returned(start, db, sales, n)
    ensures Of(db, q) != [] <==> Of(start, q) != []
  {
    OfMembers(start, q);
    OfMembers(db, q);
    if Of(db, q) != [] {
      assert Of(db, q)[0] in Of(db, q);
      assert HasProduct(db, q);
      var x :| x in start && x.product == q;
      assert x in Of(start, q);
    }
    if Of(start, q) != [] {
      assert Of(start, q)[0] in Of(start, q);
      assert HasProduct(start, q) && HasProduct(db, q);
      var x :| x in db && x.product == q;
      assert x in Of(db, q);
    }
  }

  lemma ReturnedNext(start: seq<Batch>, db: seq<Batch>, sales: seq<Sale>, i: nat, n: nat)
    requires i < |sales| && Returned(start, db, sales[..i], n) && Of(db, sales[i].product) != []
    ensures var b := Of(db, sales[i].product)[0];
            Returned(start, Update(db, b.id, b.quantity + sales[i].quantity), sales[..i + 1], n)
  {
    hide Stock, Sold, Of, Unique, AllNonNegative, IdsBelow, Update, HasProduct, NonNegativeSales;
    var s := sales[i];
    var b := FirstOf(db, s.product);
    var x := b.quantity + s.quantity;
    PutBack(db, b, x, n);
    SameProductsUpdate(db, b, x);
    assert sales[..i + 1] == sales[..i] + [s];
    Sold1(sales[..i], s);
    NonNegativeSnoc(sales[..i], s);
  }

  lemma FirstOf(db: seq<Batch>, p: int) returns (b: Batch)
    requires Unique(db) && Of(db, p) != []
    ensures b == Of(db, p)[0] && b in db && b.product == p && (AllNonNegative(db) ==> b.quantity >= 0.0)
  {
    OfMembers(db, p);
    b := Of(db, p)[0];
    assert b in Of(db, p);
  }

  lemma SameProductsUpdate(db: seq<Batch>, b: Batch, x: real)
    requires Unique(db) && b in db
    ensures forall q {:trigger HasProduct(Update(db, b.id, x), q)} :: HasProduct(Update(db, b.id, x), q) <==> HasProduct(db, q)
  {
    hide Unique;
    UpdateIn(db, b, x);
    var db' := Update(db, b.id, x);
    forall q
      ensures HasProduct(db', q) <==> HasProduct(db, q)
    {
      if HasProduct(db, q) {
        var y :| y in db && y.product == q;
        assert y == b || y in db';
        assert b.(quantity := x) in db';
      }
      if HasProduct(db', q) {
        var y :| y in db' && y.product == q;
        assert y in db || (b in db && b.product == q);
      }
    }
  }

  // ----------------------------------------------------------------------- the books

  /** The collections: inventories, sales, the products with a document in Lasts, and a source of ids. */
  datatype Books = Books(batches: seq<Batch>, sales: seq<Sale>, lasts: set<int>, nextId: nat)

  const OPEN := Books([], [], {}, 0)

  /** Requests to the service. */
  datatype Event =
    | TakenIn(product: int, quantity: real)
    | SaleMade(product: int, upb: real, quantity: real, bulks: bool)
    | SaleDeleted(id: nat, prd: int)
    | AllSalesDeleted

  function AfterIntake(b: Books, p: int, quantity: real): Books {
    b.(batches := b.batches + [Batch(b.nextId, p, quantity)], nextId := b.nextId + 1)
  }

  function Wanted(upb: real, quantity: real, bulks: bool): real {
    if bulks then quantity * upb else quantity
  }

  /** A sale is recorded if there is a batch and enough stock, and at most one empty batch is met. */
  predicate Sells(b: Books, p: int, wanted: real) {
    var inv := Of(b.batches, p);
    inv != [] && wanted <= Stock(b.batches, p) && Met(Quantities(inv), wanted) < 2
  }

  function AfterSale(b: Books, p: int, wanted: real): Books {
    if !Sells(b, p, wanted) then b
    else
      var left := Drawn(b.batches, p, wanted);
      Books(left,
            b.sales + [Sale(b.nextId, p, wanted, Stock(b.batches, p), Stock(left, p))],
            if LastGone(Of(b.batches, p), wanted) then b.lasts + {p} else b.lasts,
            b.nextId + 1)
  }

  /** A sale can be deleted if the product given has a batch, or a Lasts document to make one from. */
  predicate Deletes(b: Books, id: nat, prd: int) {
    FindSale(b.sales, id).Some? && (Of(b.batches, prd) != [] || prd in b.lasts)
  }

  function AfterDeletion(b: Books, id: nat, prd: int): Books {
    if !Deletes(b, id, prd) then b
    else
      var q, inv := FindSale(b.sales, id).value.quantity, Of(b.batches, prd);
      if inv == [] then
        Books(b.batches + [Batch(b.nextId, prd, q)], WithoutSale(b.sales, id), b.lasts, b.nextId + 1)
      else
        b.(batches := Update(b.batches, inv[0].id, inv[0].quantity + q), sales := WithoutSale(b.sales, id))
  }

  /** Every sale into the first batch of its product. */
  function PutAllBack(batches: seq<Batch>, sales: seq<Sale>): seq<Batch> {
    if sales == [] then batches
    else
      var n := |sales| - 1;
      var db := PutAllBack(batches, sales[..n]);
      var inv := Of(db, sales[n].product);
      if inv == [] then db else Update(db, inv[0].id, inv[0].quantity + sales[n].quantity)
  }

  predicate DeletesAll(b: Books) {
    forall i :: 0 <= i < |b.sales| ==> Of(b.batches, b.sales[i].product) != []
  }

  function AfterAll(b: Books): Books {
    if DeletesAll(b) then b.(batches := PutAllBack(b.batches, b.sales), sales := []) else b
  }

  function Next(b: Books, e: Event): Books {
    match e
    case TakenIn(p, q) => AfterIntake(b, p, q)
    case SaleMade(p, upb, q, bulks) => AfterSale(b, p, Wanted(upb, q, bulks))
    case SaleDeleted(id, prd) => AfterDeletion(b, id, prd)
    case AllSalesDeleted => AfterAll(b)
  }

  // ------------------------------------------------- what each request does, told by the collections

  function PositiveSum(qs: seq<real>): real {
    if qs == [] then 0.0 else (if qs[0] > 0.0 then qs[0] else 0.0) + PositiveSum(qs[1..])
  }

  /** The loop of a sale gets to batch i: each batch before it that is not empty is sold out. */
  ghost predicate Gets(qs: seq<real>, wanted: real, i: nat)
    requires i <= |qs|
  {
    forall j :: 0 <= j < i && qs[j] > 0.0 ==> PositiveSum(qs[..j + 1]) <= wanted
  }

  /** How many of the first n batches are empty ones that it gets to. */
  ghost function EmptyOnes(qs: seq<real>, wanted: real, n: nat): nat
    requires n <= |qs|
  {
    if n == 0 then 0 else EmptyOnes(qs, wanted, n - 1) + if qs[n - 1] <= 0.0 && Gets(qs, wanted, n - 1) then 1 else 0
  }

  lemma PositiveSumHead(qs: seq<real>, j: nat)
    requires 0 < j <= |qs|
    ensures PositiveSum(qs[..j]) == (if qs[0] > 0.0 then qs[0] else 0.0) + PositiveSum(qs[1..][..j - 1])
  {
    assert qs[..j][1..] == qs[1..][..j - 1];
  }

  lemma GetsNext(qs: seq<real>, wanted: real, i: nat)
    requires i < |qs|
    ensures Gets(qs, wanted, i + 1) <==> (qs[0] > 0.0 ==> qs[0] <= wanted) && Gets(qs[1..], if qs[0] > 0.0 then wanted - qs[0] else wanted, i)
  {
    var rest, left := qs[1..], if qs[0] > 0.0 then wanted - qs[0] else wanted;
    PositiveSumHead(qs, 1);
    assert PositiveSum(rest[..0]) == 0.0;
    forall j | 0 <= j < i
      ensures rest[j] == qs[j + 1] && (PositiveSum(rest[..j + 1]) <= left <==> PositiveSum(qs[..j + 2]) <= wanted)
    {
      PositiveSumHead(qs, j + 2);
    }
    if Gets(qs, wanted, i + 1) {
      forall j | 0 <= j < i && rest[j] > 0.0
        ensures PositiveSum(rest[..j + 1]) <= left
      {
        assert qs[j + 1] > 0.0;
      }
    }
    if (qs[0] > 0.0 ==> qs[0] <= wanted) && Gets(rest, left, i) {
      forall j | 0 <= j < i + 1 && qs[j] > 0.0
        ensures PositiveSum(qs[..j + 1]) <= wanted
      {
        if j > 0 {
          assert rest[j - 1] > 0.0;
        }
      }
    }
  }

  lemma {:induction false} EmptyStep(qs: seq<real>, wanted: real, n: nat)
    requires 0 < n <= |qs|
    ensures EmptyOnes(qs, wanted, n) ==
            (if qs[0] <= 0.0 then 1 else 0)
            + if qs[0] > 0.0 && qs[0] > wanted then 0
              else EmptyOnes(qs[1..], if qs[0] > 0.0 then wanted - qs[0] else wanted, n - 1)
    decreases n
  {
    if n == 1 {
      assert Gets(qs, wanted, 0);
    } else {
      hide Gets;
      EmptyStep(qs, wanted, n - 1);
      GetsNext(qs, wanted, n - 2);
    }
  }

  /** Met counts the empty batches that the loop gets to. */
  lemma {:induction false} MetIs(qs: seq<real>, wanted: real)
    ensures Met(qs, wanted) == EmptyOnes(qs, wanted, |qs|)
  {
    if qs != [] {
      hide Gets;
      EmptyStep(qs, wanted, |qs|);
      MetIs(qs[1..], if qs[0] > 0.0 then wanted - qs[0] else wanted);
    }
  }

  /** What a sale is asked to take, in pieces. */
  ghost predicate InPieces(upb: real, quantity: real, bulks: bool, pieces: real) {
    (bulks ==> pieces == quantity * upb) && (!bulks ==> pieces == quantity)
  }

  ghost predicate HasBatch(batches: seq<Batch>, p: int) {
    exists i :: 0 <= i < |batches| && batches[i].product == p
  }

  /** Accepted exactly with a batch, enough pieces, and at most one empty batch on the way; then the pieces go from the stock into the sales. */
  ghost predicate SoldPieces(b: Books, n: Books, p: int, pieces: real) {
    if HasBatch(b.batches, p) && pieces <= Stock(b.batches, p) && EmptyOnes(Quantities(Of(b.batches, p)), pieces, |Of(b.batches, p)|) < 2 then
      && n.sales == b.sales + [Sale(b.nextId, p, pieces, Stock(b.batches, p), Stock(n.batches, p))]
      && (pieces >= 0.0 ==> Stock(n.batches, p) == Stock(b.batches, p) - pieces)
      && (forall q :: q != p ==> Of(n.batches, q) == Of(b.batches, q))
      && n.lasts == b.lasts + (if |Of(b.batches, p)| == 1 && 0.0 < pieces && Stock(b.batches, p) == pieces then {p} else {})
    else n == b
  }

  lemma {:induction false} HasBatchOf(batches: seq<Batch>, p: int)
    ensures HasBatch(batches, p) <==> Of(batches, p) != []
  {
    if batches != [] {
      HasBatchOf(batches[1..], p);
      if HasBatch(batches[1..], p) {
        var i :| 0 <= i < |batches[1..]| && batches[1..][i].product == p;
        assert batches[i + 1].product == p;
      }
      if HasBatch(batches, p) && batches[0].product != p {
        var i :| 0 <= i < |batches| && batches[i].product == p;
        assert batches[1..][i - 1].product == p;
      }
    }
  }

  lemma SaleOutcome(b: Books, p: int, upb: real, quantity: real, bulks: bool, pieces: real)
    requires InPieces(upb, quantity, bulks, pieces)
    ensures SoldPieces(b, Next(b, SaleMade(p, upb, quantity, bulks)), p, pieces)
  {
    hide Draw, Met, Sum, Stock, Of, Drawn, EmptyOnes, HasBatch, SomePositive;
    var inv := Of(b.batches, p);
    assert Wanted(upb, quantity, bulks) == pieces;
    HasBatchOf(b.batches, p);
    MetIs(Quantities(inv), pieces);
    OfStock(b.batches, p);
    if Sells(b, p, pieces) {
      DrawnStock(b.batches, p, pieces, p);
      DrawTakes(Quantities(inv), pieces);
      OneBatch(inv);
      forall q | q != p
        ensures Of(Drawn(b.batches, p, pieces), q) == Of(b.batches, q)
      {
        DrawnOthers(b.batches, p, pieces, q);
      }
    }
  }

  lemma OneBatch(inv: seq<Batch>)
    ensures |inv| == 1 ==> Sum(Quantities(inv)) == inv[0].quantity
  {
    if |inv| == 1 {
      assert Quantities(inv) == [inv[0].quantity] && [inv[0].quantity][1..] == [];
    }
  }

  /** Two boxes of twelve out of thirty pieces leave six. */
  lemma BoxesOfTwelve()
    ensures var b := RunOf([TakenIn(1, 30.0), SaleMade(1, 12.0, 2.0, true)]);
            Stock(b.batches, 1) == 6.0 && |b.sales| == 1 && b.sales[0].quantity == 24.0
  {
    var events := [TakenIn(1, 30.0), SaleMade(1, 12.0, 2.0, true)];
    assert events[..1] == [TakenIn(1, 30.0)] && [TakenIn(1, 30.0)][..0] == [];
    var b := RunOf([TakenIn(1, 30.0)]);
    assert b == AfterIntake(OPEN, 1, 30.0);
    assert b.batches == [Batch(0, 1, 30.0)] && Of(b.batches, 1) == b.batches && Stock(b.batches, 1) == 30.0;
    assert Quantities(b.batches) == [30.0];
    assert Sells(b, 1, 24.0);
    SaleOutcome(b, 1, 12.0, 2.0, true, 24.0);
    MetIs([30.0], 24.0);
    HasBatchOf(b.batches, 1);
  }

  /** The books after any requests. */
  function RunOf(events: seq<Event>): Books {
    if events == [] then OPEN else Next(RunOf(events[..|events| - 1]), events[|events| - 1])
  }

  /** Ids identify batches, and are new. */
  ghost predicate Sound(b: Books) {
    Unique(b.batches) && IdsBelow(b.batches, b.nextId)
  }

  /** No batch and no recorded sale is negative. */
  ghost predicate Sane(b: Books) {
    AllNonNegative(b.batches) && NonNegativeSales(b.sales)
  }

  // --------------------------------------------------------------------- conservation

  function TakenBy(e: Event, p: int): real {
    if e.TakenIn? && e.product == p then e.quantity else 0.0
  }

  /** A sale that is recorded and takes nothing. */
  ghost function LostBy(b: Books, e: Event, p: int): real {
    if e.SaleMade? && e.product == p then
      var wanted := Wanted(e.upb, e.quantity, e.bulks);
      if Sells(b, p, wanted) && LostSale(Quantities(Of(b.batches, p)), wanted) then wanted else 0.0
    else 0.0
  }

  /** Stock that a deletion puts into another product than it came from. */
  function MovedBy(b: Books, e: Event, p: int): real {
    if e.SaleDeleted? && Deletes(b, e.id, e.prd) then
      var s := FindSale(b.sales, e.id).value;
      (if e.prd == p then s.quantity else 0.0) - SaleShare(s, p)
    else 0.0
  }

  lemma IntakeBalances(b: Books, p: int, quantity: real, q: int)
    requires Sound(b)
    ensures var n := AfterIntake(b, p, quantity);
            && Sound(n) && (Sane(b) && quantity >= 0.0 ==> Sane(n))
            && Stock(n.batches, q) == Stock(b.batches, q) + if p == q then quantity else 0.0
  {
    var x := Batch(b.nextId, p, quantity);
    AddBatch(b.batches, x, b.nextId);
    StockSnoc(b.batches, x, q);
  }

  /** A sale moves stock into the sales of its product, unless it is lost; other products are left alone. */
  lemma SaleBalances(b: Books, p: int, wanted: real, q: int)
    requires Sound(b) && Sells(b, p, wanted)
    ensures var n := AfterSale(b, p, wanted);
            && Sound(n) && (Sane(b) && wanted >= 0.0 ==> Sane(n))
            && Stock(n.batches, q) == Stock(b.batches, q)
               - (if p == q && !LostSale(Quantities(Of(b.batches, p)), wanted) then wanted else 0.0)
            && Sold(n.sales, q) == Sold(b.sales, q) + if p == q then wanted else 0.0
  {
    hide Met, LostSale, Draw, Stock, Sold, Of, Drawn, Unique;
    DrawnIds(b.batches, p, wanted, b.nextId);
    DrawnStock(b.batches, p, wanted, q);
    OfStock(b.batches, p);
    DrawTakes(Quantities(Of(b.batches, p)), wanted);
    var left := Drawn(b.batches, p, wanted);
    var s := Sale(b.nextId, p, wanted, Stock(b.batches, p), Stock(left, p));
    SoldSnoc(b.sales, s, q);
  }

  lemma DeletionBalances(b: Books, id: nat, prd: int, q: int)
    requires Sound(b) && Deletes(b, id, prd)
    ensures var n := AfterDeletion(b, id, prd);
            var s := FindSale(b.sales, id).value;
            && Sound(n) && (Sane(b) ==> Sane(n))
            && Stock(n.batches, q) == Stock(b.batches, q) + (if prd == q then s.quantity else 0.0)
            && Sold(n.sales, q) == Sold(b.sales, q) - SaleShare(s, q)
  {
    hide Stock, Sold, Of, Unique, Update, AllNonNegative, IdsBelow;
    var s := FindSale(b.sales, id).value;
    FoundSale(b.sales, id);
    SaneSales(b.sales, id);
    if Of(b.batches, prd) == [] {
      var x := Batch(b.nextId, prd, s.quantity);
      AddBatch(b.batches, x, b.nextId);
      StockSnoc(b.batches, x, q);
    } else {
      var x := FirstOf(b.batches, prd);
      PutBack(b.batches, x, x.quantity + s.quantity, b.nextId);
      assert Stock(Update(b.batches, x.id, x.quantity + s.quantity), q)
          == Stock(b.batches, q) + if prd == q then s.quantity else 0.0;
    }
  }

  lemma SaneSales(sales: seq<Sale>, id: nat)
    requires FindSale(sales, id).Some?
    ensures NonNegativeSales(sales) ==> FindSale(sales, id).value.quantity >= 0.0 && NonNegativeSales(WithoutSale(sales, id))
  {
    FoundSale(sales, id);
    if NonNegativeSales(sales) {
      var w := WithoutSale(sales, id);
      forall k | 0 <= k < |w|
        ensures w[k].quantity >= 0.0
      {
        assert w[k] in w;
      }
    }
  }

  lemma {:induction false} AllReturned(batches: seq<Batch>, sales: seq<Sale>, n: nat)
    requires Unique(batches) && IdsBelow(batches, n)
    requires forall i :: 0 <= i < |sales| ==> Of(batches, sales[i].product) != []
    ensures Returned(batches, PutAllBack(batches, sales), sales, n)
  {
    hide Returned, Of, Unique, IdsBelow, Update;
    if sales == [] {
      NothingBack(batches, sales, n);
      assert sales[..0] == sales;
    } else {
      var k := |sales| - 1;
      AllReturned(batches, sales[..k], n);
      var db := PutAllBack(batches, sales[..k]);
      SameProducts(batches, db, sales[..k], n, sales[k].product);
      ReturnedNext(batches, db, sales, k, n);
      assert sales[..k + 1] == sales;
    }
  }

  lemma AllBalances(b: Books, q: int)
    requires Sound(b) && DeletesAll(b)
    ensures var n := AfterAll(b);
            && Sound(n) && (Sane(b) ==> Sane(n))
            && Stock(n.batches, q) == Stock(b.batches, q) + Sold(b.sales, q) && Sold(n.sales, q) == 0.0
  {
    AllReturned(b.batches, b.sales, b.nextId);
    assert Stock(PutAllBack(b.batches, b.sales), q) == Stock(b.batches, q) + Sold(b.sales, q);
  }

  /** The first sale with the id. */
  ghost predicate IsSale(sales: seq<Sale>, id: nat, i: nat) {
    i < |sales| && sales[i].id == id && forall j :: 0 <= j < i ==> sales[j].id != id
  }

  /** Its quantity goes to the first batch of the product given, or into a new one, and nothing else changes. */
  ghost predicate PutBackAt(b: Books, n: Books, i: nat, prd: int)
    requires i < |b.sales|
  {
    var q := b.sales[i].quantity;
    && n.sales == b.sales[..i] + b.sales[i + 1..] && n.lasts == b.lasts
    && if HasBatch(b.batches, prd) then
         exists k: nat :: IsFirst(b.batches, prd, k) && n.batches == b.batches[k := b.batches[k].(quantity := b.batches[k].quantity + q)]
       else n.batches == b.batches + [Batch(b.nextId, prd, q)]
  }

  ghost predicate IsFirst(batches: seq<Batch>, p: int, k: nat) {
    k < |batches| && batches[k].product == p && forall j :: 0 <= j < k ==> batches[j].product != p
  }

  lemma {:induction false} SaleFound(sales: seq<Sale>, id: nat, i: nat)
    requires IsSale(sales, id, i)
    ensures FindSale(sales, id) == Some(sales[i]) && WithoutSale(sales, id) == sales[..i] + sales[i + 1..]
  {
    var rest := sales[1..];
    if i > 0 {
      assert IsSale(rest, id, i - 1);
      SaleFound(rest, id, i - 1);
      assert sales[0].id != id;
      hide IsSale;
      assert WithoutSale(sales, id) == [sales[0]] + WithoutSale(rest, id);
      assert sales[..i] == [sales[0]] + rest[..i - 1];
      assert rest[i..] == sales[i + 1..];
    }
  }

  lemma {:induction false} NoSale(sales: seq<Sale>, id: nat)
    requires forall i: nat :: !IsSale(sales, id, i)
    ensures FindSale(sales, id) == None
  {
    if sales != [] {
      assert !IsSale(sales, id, 0);
      forall i: nat
        ensures !IsSale(sales[1..], id, i)
      {
        assert !IsSale(sales, id, i + 1);
      }
      NoSale(sales[1..], id);
    }
  }

  lemma {:induction false} FirstIs(batches: seq<Batch>, p: int) returns (k: nat)
    requires Of(batches, p) != []
    ensures IsFirst(batches, p, k) && batches[k] == Of(batches, p)[0]
  {
    if batches[0].product == p {
      k := 0;
    } else {
      var j := FirstIs(batches[1..], p);
      k := j + 1;
    }
  }

  lemma UpdateFirst(batches: seq<Batch>, k: nat, x: real)
    requires Unique(batches) && k < |batches|
    ensures Update(batches, batches[k].id, x) == batches[k := batches[k].(quantity := x)]
  {
    assert batches == batches[..k] + [batches[k]] + batches[k + 1..];
    UpdateAt(batches[..k], batches[k], batches[k + 1..], x);
  }

  /** Accepted exactly if there is such a sale and the product given has a batch or a Lasts document. */
  lemma DeletionOutcome(b: Books, id: nat, prd: int)
    requires Unique(b.batches)
    ensures var n := Next(b, SaleDeleted(id, prd));
            && (forall i: nat :: IsSale(b.sales, id, i) && (HasBatch(b.batches, prd) || prd in b.lasts) ==> PutBackAt(b, n, i, prd))
            && ((forall i: nat :: !IsSale(b.sales, id, i)) || !(HasBatch(b.batches, prd) || prd in b.lasts) ==> n == b)
  {
    hide Of, Update, FindSale, WithoutSale, HasBatch, IsFirst, Unique, IsSale;
    HasBatchOf(b.batches, prd);
    if forall i: nat :: !IsSale(b.sales, id, i) {
      NoSale(b.sales, id);
    }
    forall i: nat | IsSale(b.sales, id, i) && (HasBatch(b.batches, prd) || prd in b.lasts)
      ensures i < |b.sales| && PutBackAt(b, Next(b, SaleDeleted(id, prd)), i, prd)
    {
      SaleThere(b.sales, id, i);
      SaleFound(b.sales, id, i);
      if HasBatch(b.batches, prd) {
        var k := FirstIs(b.batches, prd);
        FirstThere(b.batches, prd, k);
        UpdateFirst(b.batches, k, b.batches[k].quantity + b.sales[i].quantity);
      }
    }
  }

  lemma SaleThere(sales: seq<Sale>, id: nat, i: nat)
    requires IsSale(sales, id, i)
    ensures i < |sales|
  {}

  lemma FirstThere(batches: seq<Batch>, p: int, k: nat)
    requires IsFirst(batches, p, k)
    ensures k < |batches|
  {}

  /** All sales go exactly if every product sold has a batch; each product has then got back what was sold. */
  lemma AllOutcome(b: Books)
    requires Sound(b)
    ensures var n := Next(b, AllSalesDeleted);
            if forall i :: 0 <= i < |b.sales| ==> HasBatch(b.batches, b.sales[i].product)
            then n.sales == [] && n.lasts == b.lasts && forall q :: Stock(n.batches, q) == Stock(b.batches, q) + Sold(b.sales, q)
            else n == b
  {
    hide Of, HasBatch, Stock, Sold;
    forall i | 0 <= i < |b.sales|
      ensures HasBatch(b.batches, b.sales[i].product) <==> Of(b.batches, b.sales[i].product) != []
    {
      HasBatchOf(b.batches, b.sales[i].product);
    }
    if DeletesAll(b) {
      forall q
        ensures Stock(AfterAll(b).batches, q) == Stock(b.batches, q) + Sold(b.sales, q)
      {
        AllBalances(b, q);
      }
    }
  }

  predicate NonNegativeEvent(e: Event) {
    (e.TakenIn? ==> e.quantity >= 0.0) && (e.SaleMade? ==> e.quantity >= 0.0 && (e.bulks ==> e.upb >= 0.0))
  }

  /** Every request, accepted or refused: stock and sales together change by what is taken in, lost or moved. */
  lemma NextBalances(b: Books, e: Event, q: int)
    requires Sound(b)
    ensures var n := Next(b, e);
            && Sound(n) && (Sane(b) && NonNegativeEvent(e) ==> Sane(n))
            && Stock(n.batches, q) + Sold(n.sales, q)
               == Stock(b.batches, q) + Sold(b.sales, q) + TakenBy(e, q) + LostBy(b, e, q) + MovedBy(b, e, q)
  {
    hide Stock, Sold, Of, Sells, Deletes, DeletesAll, Sound, Sane, LostSale;
    match e {
      case TakenIn(p, x) =>
        IntakeBalances(b, p, x, q);
      case SaleMade(p, upb, x, bulks) =>
        var wanted := Wanted(upb, x, bulks);
        ProductNonNegative(upb, x);
        if Sells(b, p, wanted) {
          SaleBalances(b, p, wanted, q);
        }
      case SaleDeleted(id, prd) =>
        if Deletes(b, id, prd) {
          DeletionBalances(b, id, prd, q);
        }
      case AllSalesDeleted =>
        if DeletesAll(b) {
          AllBalances(b, q);
        }
    }
  }

  lemma ProductNonNegative(x: real, y: real)
    ensures x >= 0.0 && y >= 0.0 ==> y * x >= 0.0
  {}

  /** What a run takes in of a product, */
  function TakenOf(events: seq<Event>, p: int): real {
    if events == [] then 0.0
    else TakenOf(events[..|events| - 1], p) + TakenBy(events[|events| - 1], p)
  }

  /** what it loses in negative sales of empty batches, */
  ghost function LostOf(events: seq<Event>, p: int): real {
    if events == [] then 0.0
    else
      var before := events[..|events| - 1];
      LostOf(before, p) + LostBy(RunOf(before), events[|events| - 1], p)
  }

  /** and what it moves between products. */
  function MovedOf(events: seq<Event>, p: int): real {
    if events == [] then 0.0
    else
      var before := events[..|events| - 1];
      MovedOf(before, p) + MovedBy(RunOf(before), events[|events| - 1], p)
  }

  /** After any requests at all stock plus recorded sales is what was taken in, lost and moved. */
  lemma {:induction false} Conservation(events: seq<Event>, p: int)
    ensures var b := RunOf(events);
            && Sound(b)
            && Stock(b.batches, p) + Sold(b.sales, p) == TakenOf(events, p) + LostOf(events, p) + MovedOf(events, p)
  {
    hide Next, LostBy, MovedBy, TakenBy, Stock, Sold;
    if events == [] {
      StartsEmpty(p);
    } else {
      var n := |events| - 1;
      Conservation(events[..n], p);
      NextBalances(RunOf(events[..n]), events[n], p);
    }
  }

  lemma StartsEmpty(p: int)
    ensures Sound(OPEN) && Sane(OPEN) && Stock(OPEN.batches, p) == 0.0 && Sold(OPEN.sales, p) == 0.0
  {}

  /** The sale, if it is there, was of the product given. */
  predicate OwnProduct(b: Books, e: Event) {
    e.SaleDeleted? && FindSale(b.sales, e.id).Some? ==> FindSale(b.sales, e.id).value.product == e.prd
  }

  /** No quantity is negative, and sales are deleted with their own product. */
  predicate Orderly(events: seq<Event>) {
    events == [] ||
    var n := |events| - 1;
    Orderly(events[..n]) && NonNegativeEvent(events[n]) && OwnProduct(RunOf(events[..n]), events[n])
  }

  /** Then nothing is lost or moved, and no batch is negative. */
  lemma {:induction false} OrderlyConserves(events: seq<Event>, p: int)
    requires Orderly(events)
    ensures var b := RunOf(events);
            Sane(b) && Stock(b.batches, p) + Sold(b.sales, p) == TakenOf(events, p) && LostOf(events, p) == 0.0 == MovedOf(events, p)
  {
    hide Next, Stock, Sold, TakenOf;
    Conservation(events, p);
    if events == [] {
      StartsEmpty(p);
    } else {
      var n := |events| - 1;
      OrderlyConserves(events[..n], p);
      Conservation(events[..n], p);
      NextBalances(RunOf(events[..n]), events[n], p);
      OrderlyStep(RunOf(events[..n]), events[n], p);
    }
  }

  lemma OrderlyStep(b: Books, e: Event, p: int)
    requires NonNegativeEvent(e) && OwnProduct(b, e)
    ensures LostBy(b, e, p) == 0.0 && MovedBy(b, e, p) == 0.0
  {
    hide Sells, Of, LostSale, Deletes;
    if e.SaleMade? {
      ProductNonNegative(e.upb, e.quantity);
      LostNegative(Quantities(Of(b.batches, p)), Wanted(e.upb, e.quantity, e.bulks));
    }
    DeletesFound(b, e);
  }

  lemma LostNegative(qs: seq<real>, wanted: real)
    ensures LostSale(qs, wanted) ==> wanted < 0.0
  {}

  lemma DeletesFound(b: Books, e: Event)
    ensures e.SaleDeleted? && Deletes(b, e.id, e.prd) ==> FindSale(b.sales, e.id).Some?
  {}

  /** Every recorded sale says what it left behind; only a negative one can have left everything. */
  ghost predicate Recorded(b: Books) {
    forall i :: 0 <= i < |b.sales| ==>
      var s := b.sales[i]; s.after == s.before - s.quantity || (s.quantity < 0.0 && s.after == s.before)
  }

  lemma {:induction false} RunRecords(events: seq<Event>)
    ensures Recorded(RunOf(events))
  {
    if events != [] {
      var n := |events| - 1;
      RunRecords(events[..n]);
      Conservation(events[..n], 0);
      NextRecords(RunOf(events[..n]), events[n]);
    }
  }

  lemma NextRecords(b: Books, e: Event)
    requires Sound(b) && Recorded(b)
    ensures Recorded(Next(b, e))
  {
    hide Stock, Sold, Of, Sells, DeletesAll, Sound, LostSale, Deletes, Update, Drawn, Met;
    match e {
      case TakenIn(p, x) =>
      case SaleMade(p, upb, x, bulks) =>
        var wanted := Wanted(upb, x, bulks);
        if Sells(b, p, wanted) {
          SaleBalances(b, p, wanted, p);
          LostNegative(Quantities(Of(b.batches, p)), wanted);
        }
      case SaleDeleted(id, prd) =>
        if Deletes(b, id, prd) {
          DeletesFound(b, e);
          FoundSale(b.sales, id);
          KeptRecords(b, id);
        }
      case AllSalesDeleted =>
    }
  }

  lemma KeptRecords(b: Books, id: nat)
    requires Recorded(b) && forall s :: s in WithoutSale(b.sales, id) ==> s in b.sales
    ensures Recorded(b.(sales := WithoutSale(b.sales, id)))
  {
    var w := WithoutSale(b.sales, id);
    forall i | 0 <= i < |w|
      ensures w[i].after == w[i].before - w[i].quantity || (w[i].quantity < 0.0 && w[i].after == w[i].before)
    {
      assert w[i] in w;
      var j :| 0 <= j < |b.sales| && b.sales[j] == w[i];
    }
  }

  // ------------------------------------------------------- where the code goes wrong

  /** A sale of product 1 deleted under product 2: its stock ends up there, and the books of neither balance. */
  lemma DeletedUnderAnother()
    ensures var b := RunOf([TakenIn(1, 5.0), TakenIn(2, 1.0), SaleMade(1, 1.0, 3.0, false), SaleDeleted(2, 2)]);
            Stock(b.batches, 1) == 2.0 && Stock(b.batches, 2) == 4.0 && b.sales == []
  {
    hide AfterSale, AfterDeletion, Stock;
    var events := [TakenIn(1, 5.0), TakenIn(2, 1.0), SaleMade(1, 1.0, 3.0, false), SaleDeleted(2, 2)];
    assert events[..2] == [TakenIn(1, 5.0), TakenIn(2, 1.0)] && events[..4] == events;
    TwoTaken(Batch(0, 1, 5.0), Batch(1, 2, 1.0));
    SaleOfThree();
    DeletedUnderTwo();
    RunSnoc(events, 2);
    RunSnoc(events, 3);
    TwoBatches(Batch(0, 1, 2.0), Batch(1, 2, 4.0), 1);
    TwoBatches(Batch(0, 1, 2.0), Batch(1, 2, 4.0), 2);
  }

  lemma SaleOfThree()
    ensures AfterSale(Books([Batch(0, 1, 5.0), Batch(1, 2, 1.0)], [], {}, 2), 1, 3.0)
         == Books([Batch(0, 1, 2.0), Batch(1, 2, 1.0)], [Sale(2, 1, 3.0, 5.0, 2.0)], {}, 3)
  {
    hide Met;
    var x, y := Batch(0, 1, 5.0), Batch(1, 2, 1.0);
    TwoBatches(x, y, 1);
    TwoBatches(x.(quantity := 2.0), y, 1);
    assert [x] + [] == [x] && Quantities([x]) == [5.0];
    NothingMet([5.0], 3.0);
    DrawnCons(x, [y], 1, 3.0);
    assert [x] + [y] == [x, y] && [x.(quantity := 2.0)] + [y] == [x.(quantity := 2.0), y];
    hide Of, Stock, Drawn, Quantities;
    assert Sells(Books([x, y], [], {}, 2), 1, 3.0) && Drawn([x, y], 1, 3.0) == [x.(quantity := 2.0), y];
  }

  lemma DeletedUnderTwo()
    ensures AfterDeletion(Books([Batch(0, 1, 2.0), Batch(1, 2, 1.0)], [Sale(2, 1, 3.0, 5.0, 2.0)], {}, 3), 2, 2)
         == Books([Batch(0, 1, 2.0), Batch(1, 2, 4.0)], [], {}, 3)
  {
    var x, y := Batch(0, 1, 2.0), Batch(1, 2, 1.0);
    TwoBatches(x, y, 2);
    assert [] + [y] == [y];
    UpdateAt([x], y, [], 4.0);
    assert [x] + [y] + [] == [x, y] && [x] + [y.(quantity := 4.0)] + [] == [x, y.(quantity := 4.0)];
  }

  lemma TwoTaken(x: Batch, y: Batch)
    requires x.id == 0 && y.id == 1
    ensures RunOf([TakenIn(x.product, x.quantity), TakenIn(y.product, y.quantity)]) == Books([x, y], [], {}, 2)
  {
    var events := [TakenIn(x.product, x.quantity), TakenIn(y.product, y.quantity)];
    assert events[..1] == [events[0]] && [events[0]][..0] == [];
    assert RunOf([]) == OPEN;
    assert RunOf([events[0]]) == Books([x], [], {}, 1);
  }

  lemma RunSnoc(events: seq<Event>, n: nat)
    requires n < |events|
    ensures RunOf(events[..n + 1]) == Next(RunOf(events[..n]), events[n])
  {
    assert events[..n + 1][..n] == events[..n];
  }

  lemma TwoBatches(x: Batch, y: Batch, p: int)
    ensures Of([x, y], p) == (if x.product == p then [x] else []) + (if y.product == p then [y] else [])
    ensures Stock([x, y], p) == Share(x, p) + Share(y, p)
  {
    assert [x, y][1..] == [y] && [y][1..] == [];
    assert Of([y], p) == if y.product == p then [y] else [];
    assert Stock([y], p) == Share(y, p);
  }

  /** A sale that empties the last two batches at once cannot be deleted. */
  lemma NoLastsForTwo()
    ensures var b := RunOf([TakenIn(1, 2.0), TakenIn(1, 3.0), SaleMade(1, 1.0, 5.0, false)]);
            b == Books([], [Sale(2, 1, 5.0, 5.0, 0.0)], {}, 3) && !Deletes(b, 2, 1)
  {
    var x, y := Batch(0, 1, 2.0), Batch(1, 1, 3.0);
    var events := [TakenIn(1, 2.0), TakenIn(1, 3.0), SaleMade(1, 1.0, 5.0, false)];
    TwoTaken(x, y);
    assert events[..2] == [TakenIn(1, 2.0), TakenIn(1, 3.0)] && events[..3] == events;
    RunSnoc(events, 2);
    TwoBatches(x, y, 1);
    assert [x] + [y] == [x, y];
    assert [x, y][1..] == [y] && [y][1..] == [];
    assert Drawn([y], 1, 3.0) == [];
    assert Drawn([x, y], 1, 5.0) == [];
    assert Quantities([x, y]) == [2.0, 3.0];
    assert [2.0, 3.0][1..] == [3.0] && [3.0][1..] == [];
    assert Met([3.0], 3.0) == 0;
  }

  // ----------------------------------------------------------------------- the service

  class Ledger {
    var batches: seq<Batch>
    var sales: seq<Sale>
    var lasts: set<int>
    var nextId: nat

    function View(): Books
      reads this
    {
      Books(batches, sales, lasts, nextId)
    }

    constructor ()
      ensures View() == OPEN
    {
      batches, sales, lasts, nextId := [], [], {}, 0;
    }

    /** The inventory document of addProduct and addInventory. */
    method TakeIn(p: int, quantity: real)
      modifies this
      ensures View() == AfterIntake(old(View()), p, quantity)
    {
      batches := batches + [Batch(nextId, p, quantity)];
      nextId := nextId + 1;
    }

    /**
      The loop of recordSales, inside its transaction; emptied says that a batch went, thrown
      that the reply at an empty batch was the second one.
    */
    method DrawDown(p: int, wanted: real, inv0: seq<Batch>)
      returns (thrown: bool, db: seq<Batch>, inv: seq<Batch>, emptied: bool)
      requires Unique(batches) && inv0 == Of(batches, p)
      ensures thrown <==> Met(Quantities(inv0), wanted) >= 2
      ensures !thrown ==>
                && db == Drawn(batches, p, wanted) && Quantities(inv) == Draw(Quantities(inv0), wanted)
                && (|inv0| == 1 ==> OneGone(inv0, wanted, emptied))
    {
      hide Halfway, Selling, Draw, Met, Of, Drawn, Unique, Remove, Update, SameBatches, OneGone;
      thrown, db, inv, emptied := false, batches, inv0, false;
      HalfwayStart(wanted, inv0);
      var i, temporary, replied := 0, wanted, false;
      ghost var pre, rest := [], batches;
      StartSelling(batches, p, wanted);
      while i < |inv|
        invariant 0 <= i <= |inv| == |inv0| && Selling(db, batches, pre, rest, p, wanted, temporary) && Of(rest, p) == inv0[i..]
        invariant Halfway(wanted, inv0, inv, i, temporary, replied, emptied)
      {
        var q := inv[i].quantity;
        HalfwayStep(wanted, inv0, inv, i, temporary, replied, emptied);
        ghost var gone, more := SellingStep(db, batches, pre, rest, p, wanted, temporary);
        if q > 0.0 {
          if temporary >= q {
            temporary := temporary - q;
            db := Remove(db, inv[i].id);
            inv := inv[i := inv[i].(quantity := 0.0)];
            emptied := true;
            pre := gone;
          } else {
            db := Update(db, inv[i].id, q - temporary);
            inv := inv[i := inv[i].(quantity := q - temporary)];
            return;
          }
        } else {
          if replied {
            thrown := true;
            return;
          }
          replied := true;
          pre := gone + [inv0[i]];
        }
        assert inv0[i..][1..] == inv0[i + 1..];
        rest := more;
        i := i + 1;
      }
      EndSelling(db, batches, pre, rest, p, wanted, temporary);
      HalfwayEnd(wanted, inv0, inv, i, temporary, replied, emptied);
    }

    /** recordSales */
    method Sell(p: int, upb: real, quantity: real, bulks: bool) returns (ok: bool)
      requires Unique(batches)
      modifies this
      ensures ok <==> Sells(old(View()), p, Wanted(upb, quantity, bulks))
      ensures View() == AfterSale(old(View()), p, Wanted(upb, quantity, bulks))
      ensures SoldPieces(old(View()), View(), p, if bulks then quantity * upb else quantity)
    {
      ghost var was := View();
      SaleOutcome(was, p, upb, quantity, bulks, if bulks then quantity * upb else quantity);
      hide SoldPieces;
      hide Draw, Met, Sum, Stock, Of, Drawn, Unique, Quantities;
      var wanted := if bulks then quantity * upb else quantity;
      var inv := Of(batches, p);
      OfStock(batches, p);
      if |inv| == 0 {
        return false;
      }
      var before := Sum(Quantities(inv));
      if wanted > before {
        return false;
      }
      var thrown, db, now, emptied := DrawDown(p, wanted, inv);
      if thrown {
        return false;
      }
      DrawnStock(batches, p, wanted, p);
      var after := Sum(Quantities(now));
      if emptied && |inv| == 1 {
        lasts := lasts + {p};
      }
      batches, sales, nextId := db, sales + [Sale(nextId, p, wanted, before, after)], nextId + 1;
      ok := true;
    }

    /** deleteSalesRecord with the product given in the request. */
    method DeleteSale(id: nat, prd: int) returns (ok: bool)
      modifies this
      ensures ok <==> Deletes(old(View()), id, prd)
      ensures View() == AfterDeletion(old(View()), id, prd)
    {
      hide Of, FindSale, WithoutSale, Update;
      var sale := FindSale(sales, id);
      if sale.None? {
        return false;
      }
      var inv := Of(batches, prd);
      if |inv| == 0 {
        if prd !in lasts {
          return false;
        }
        batches := batches + [Batch(nextId, prd, sale.value.quantity)];
        nextId := nextId + 1;
      } else {
        batches := Update(batches, inv[0].id, inv[0].quantity + sale.value.quantity);
      }
      sales := WithoutSale(sales, id);
      ok := true;
    }

    /** deleteAllSales: all of the stock goes back, or, if one sale has no batch to go to, nothing happens. */
    method DeleteAllSales() returns (ok: bool)
      requires Sound(View())
      modifies this
      ensures ok <==> DeletesAll(old(View()))
      ensures View() == AfterAll(old(View()))
    {
      hide Of, Unique, IdsBelow, Returned, Update;
      var db := batches;
      for i := 0 to |sales|
        invariant unchanged(this)
        invariant db == PutAllBack(batches, sales[..i])
        invariant forall j :: 0 <= j < i ==> Of(batches, sales[j].product) != []
      {
        var found := Of(db, sales[i].product);
        AllReturned(batches, sales[..i], nextId);
        SameProducts(batches, db, sales[..i], nextId, sales[i].product);
        if |found| == 0 {
          return false;
        }
        assert sales[..i + 1][..i] == sales[..i];
        db := Update(db, found[0].id, found[0].quantity + sales[i].quantity);
      }
      assert sales[..|sales|] == sales;
      batches, sales := db, [];
      ok := true;
    }
  }

  lemma StartSelling(batches: seq<Batch>, p: int, wanted: real)
    requires Unique(batches)
    ensures Selling(batches, batches, [], batches, p, wanted, wanted) && Of(batches, p) == Of(batches, p)[0..]
  {
    assert [] + batches == batches && [] + Drawn(batches, p, wanted) == Drawn(batches, p, wanted);
  }

  lemma EndSelling(db: seq<Batch>, start: seq<Batch>, pre: seq<Batch>, rest: seq<Batch>, p: int, wanted: real, left: real)
    requires Selling(db, start, pre, rest, p, wanted, left) && Of(rest, p) == []
    ensures db == Drawn(start, p, wanted)
  {
    NothingDrawn(rest, p, left);
  }

  /** One request. */
  method Serve(l: Ledger, e: Event)
    requires Sound(l.View())
    modifies l
    ensures l.View() == Next(old(l.View()), e) && Sound(l.View())
  {
    hide Sells, Deletes, DeletesAll, AfterSale, AfterDeletion, AfterAll, AfterIntake, IdsBelow;
    NextBalances(l.View(), e, 0);
    match e {
      case TakenIn(p, q) =>
        l.TakeIn(p, q);
      case SaleMade(p, upb, q, bulks) =>
        var ok := l.Sell(p, upb, q, bulks);
      case SaleDeleted(id, prd) =>
        var ok := l.DeleteSale(id, prd);
      case AllSalesDeleted =>
        var ok := l.DeleteAllSales();
    }
  }

  /** Any run at all, with the law of conservation for every product. */
  method Run(events: seq<Event>) returns (l: Ledger)
    ensures l.View() == RunOf(events) && Sound(l.View()) && Recorded(l.View())
    ensures forall p :: Stock(l.batches, p) + Sold(l.sales, p) == TakenOf(events, p) + LostOf(events, p) + MovedOf(events, p)
    ensures Orderly(events) ==> Sane(l.View()) && forall p :: Stock(l.batches, p) + Sold(l.sales, p) == TakenOf(events, p)
  {
    hide Next, Stock, Sold, TakenOf, LostOf, MovedOf, Orderly, Recorded, Sane;
    l := new Ledger();
    StartsEmpty(0);
    assert events[..0] == [];
    for i := 0 to |events|
      invariant fresh(l) && l.View() == RunOf(events[..i]) && Sound(l.View())
    {
      RunSnoc(events, i);
      Serve(l, events[i]);
    }
    assert events[..|events|] == events;
    RunRecords(events);
    forall p
      ensures Stock(l.batches, p) + Sold(l.sales, p) == TakenOf(events, p) + LostOf(events, p) + MovedOf(events, p)
      ensures Orderly(events) ==> Sane(l.View()) && Stock(l.batches, p) + Sold(l.sales, p) == TakenOf(events, p)
    {
      Conservation(events, p);
      if Orderly(events) {
        OrderlyConserves(events, p);
      }
    }
    if Orderly(events) {
      OrderlyConserves(events, 0);
    }
  }
}
