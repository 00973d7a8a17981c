/**
 * `ProductBuyDialog`: one spin box per variant, grouped by colour, and
 * `add_to_cart`, which turns the chosen quantities into cart lines.
 */
module BuyDialog {
  import opened Schema
  import opened Catalog
  import opened Grouping

  /** The state of a QSpinBox that matters here: its range and value. */
  datatype SpinBox = SpinBox(minimum: int, maximum: int, value: int)

  /**
   * `spin.setRange(0, stock)` on a fresh spin box: a maximum below the
   * minimum is raised to it, so the range is 0 to the stock, or just 0.
   */
  function NewSpinBox(stock: int): (sb: SpinBox)
  {
    SpinBox(0, if stock < 0 then 0 else stock, 0)
  }

  /** `setValue(v)`: the value is clamped into the range. */
  function SetValue(sb: SpinBox, v: int): (r: SpinBox)
    requires sb.minimum <= sb.maximum
    ensures r.minimum == sb.minimum && r.maximum == sb.maximum
    ensures r.minimum <= r.value <= r.maximum
    ensures sb.minimum <= v <= sb.maximum ==> r.value == v
  {
    sb.(value := if v < sb.minimum then sb.minimum else if v > sb.maximum then sb.maximum else v)
  }

  /** The cart lines made for the variants with id `id`, with quantity `qty`. */
  function LinesFor(productName: string, vs: seq<VariantView>, id: int, qty: int): seq<CartLine>
  {
    if vs == [] then []
    else
      var v := vs[|vs| - 1];
      LinesFor(productName, vs[..|vs| - 1], id, qty) +
        (if v.id == id then [CartLine(v.id, qty, v.price, productName, v.color, v.size)] else [])
  }

  /** What `add_to_cart` appends: for each spin box in order, if its value is positive, its lines. */
  function Selection(product: ProductView, keys: seq<int>, spins: map<int, SpinBox>): seq<CartLine>
    requires forall j | 0 <= j < |keys| :: keys[j] in spins
  {
    if keys == [] then []
    else
      var id := keys[|keys| - 1];
      Selection(product, keys[..|keys| - 1], spins) +
        (if spins[id].value > 0 then LinesFor(product.name, product.variants, id, spins[id].value) else [])
  }

  /** No two variants of the product share an id (true of rows read from the database). */
  predicate UniqueIds(vs: seq<VariantView>)
  {
    forall i, j | 0 <= i < j < |vs| :: vs[i].id != vs[j].id
  }

  /**
   * Each key is listed once and has a spin box whose value lies in its
   * range, which runs from 0 to the (non-negative part of the) stock of a
   * variant of the product with that id.
   */
  predicate SpinsFit(product: ProductView, keys: seq<int>, spins: map<int, SpinBox>)
  {
    && (forall j | 0 <= j < |keys| :: keys[j] in spins)
    && (forall id | id in spins :: id in keys)
    && (forall i, j | 0 <= i < j < |keys| :: keys[i] != keys[j])
    && (forall id | id in spins ::
          && spins[id].minimum == 0 <= spins[id].value <= spins[id].maximum
          && exists k | 0 <= k < |product.variants| ::
               product.variants[k].id == id && spins[id] == NewSpinBox(product.variants[k].stock).(value := spins[id].value))
  }

  /**
   * The ids of `group` appended to `ks` in order, each unless already
   * listed: the key order of a dict after those ids are set in turn.
   */
  function NewIds(ks: seq<int>, group: seq<VariantView>): seq<int>
  {
    if group == [] then ks
    else
      var p := NewIds(ks, group[..|group| - 1]);
      var id := group[|group| - 1].id;
      if id in p then p else p + [id]
  }

  /** Setting the ids of two lists in turn is setting those of their concatenation. */
  lemma {:induction false} NewIdsConcat(ks: seq<int>, a: seq<VariantView>, b: seq<VariantView>)
    ensures NewIds(ks, a + b) == NewIds(NewIds(ks, a), b)
  {
    if b == [] {
      assert a + b == a;
    } else {
      assert (a + b)[..|a + b| - 1] == a + b[..|b| - 1];
      NewIdsConcat(ks, a, b[..|b| - 1]);
    }
  }

  /**
   * The order of the dialog's spin boxes: colour by colour in order of
   * first appearance, each colour's variants in list order, every id once.
   */
  function KeyOrder(product: ProductView): seq<int>
  {
    NewIds([], Concat(FirstSeen(product.variants), product.variants))
  }

  /** Setting one more variant's spin box, at 0, keeps the spin boxes fitting the product. */
  lemma AddSpinBoxKeepsFit(
    product: ProductView, ks: seq<int>, sp: map<int, SpinBox>, v: VariantView, ks': seq<int>, sp': map<int, SpinBox>)
    requires SpinsFit(product, ks, sp) && forall id | id in sp :: sp[id].value == 0
    requires v in product.variants
    requires ks' == (if v.id in sp then ks else ks + [v.id]) && sp' == sp[v.id := NewSpinBox(v.stock)]
    ensures SpinsFit(product, ks', sp') && forall id | id in sp' :: sp'[id].value == 0
  {
    var k :| 0 <= k < |product.variants| && product.variants[k] == v;
    assert sp'[v.id] == NewSpinBox(product.variants[k].stock).(value := sp'[v.id].value);
  }

  /** The inner loop of the dialog's set-up: a spin box for each variant of one colour group. */
  method AddGroupSpinBoxes(product: ProductView, group: seq<VariantView>, ks0: seq<int>, sp0: map<int, SpinBox>)
    returns (ks: seq<int>, sp: map<int, SpinBox>)
    requires SpinsFit(product, ks0, sp0) && forall id | id in sp0 :: sp0[id].value == 0
    requires forall x | x in group :: x in product.variants
    ensures SpinsFit(product, ks, sp) && forall id | id in sp :: sp[id].value == 0
    ensures ks == NewIds(ks0, group)
    ensures sp0.Keys <= sp.Keys
    ensures forall x | x in group :: x.id in sp
  {
    ks, sp := ks0, sp0;
    var i := 0;
    while i < |group|
      invariant i <= |group|
      invariant SpinsFit(product, ks, sp) && forall id | id in sp :: sp[id].value == 0
      invariant ks == NewIds(ks0, group[..i])
      invariant sp0.Keys <= sp.Keys
      invariant forall j | 0 <= j < i :: group[j].id in sp
    {
      var v := group[i];
      assert group[..i + 1][..i] == group[..i];
      assert v.id in sp <==> v.id in ks;
      var ks', sp' := ks, sp[v.id := NewSpinBox(v.stock)];
      if v.id !in sp {
        ks' := ks + [v.id];
      }
      AddSpinBoxKeepsFit(product, ks, sp, v, ks', sp');
      ks, sp := ks', sp';
      i := i + 1;
    }
    assert group[..i] == group;
  }

  /**
   * The set-up loops of `ProductBuyDialog.__init__`: colour group by
   * colour group, a spin box with range 0..stock for every variant.
   */
  method BuildSpinBoxes(product: ProductView) returns (ks: seq<int>, sp: map<int, SpinBox>)
    ensures SpinsFit(product, ks, sp)
    ensures ks == KeyOrder(product)
    ensures forall id | id in sp :: sp[id].value == 0
    ensures forall k | 0 <= k < |product.variants| :: product.variants[k].id in sp
  {
    var vs := product.variants;
    var colors, groups := GroupByColor(vs);
    ks, sp := [], map[];
    var c := 0;
    while c < |colors|
      invariant c <= |colors|
      invariant SpinsFit(product, ks, sp)
      invariant ks == NewIds([], Concat(colors[..c], vs))
      invariant forall id | id in sp :: sp[id].value == 0
      invariant forall k | 0 <= k < |vs| && vs[k].color in colors[..c] :: vs[k].id in sp
    {
      OfColorMembers(vs, colors[c]);
      ks, sp := AddGroupSpinBoxes(product, groups[colors[c]], ks, sp);
      NextColorKeys(vs, colors, c);
      NextColorCovered(vs, colors, c, sp);
      c := c + 1;
    }
    assert colors[..c] == colors;
    forall k | 0 <= k < |vs| ensures vs[k].id in sp {
      FirstSeenIsColorSet(vs);
    }
  }

  /** Adding the next colour's ids extends the key order to that colour. */
  lemma NextColorKeys(vs: seq<VariantView>, colors: seq<string>, c: nat)
    requires c < |colors|
    ensures NewIds(NewIds([], Concat(colors[..c], vs)), OfColor(vs, colors[c])) == NewIds([], Concat(colors[..c + 1], vs))
  {
    assert colors[..c + 1][..c] == colors[..c];
    NewIdsConcat([], Concat(colors[..c], vs), OfColor(vs, colors[c]));
  }

  /** Once the next colour's group has its spin boxes, every variant of the colours so far has one. */
  lemma NextColorCovered(vs: seq<VariantView>, colors: seq<string>, c: nat, sp: map<int, SpinBox>)
    requires c < |colors|
    requires forall k | 0 <= k < |vs| && vs[k].color in colors[..c] :: vs[k].id in sp
    requires forall x | x in OfColor(vs, colors[c]) :: x.id in sp
    ensures forall k | 0 <= k < |vs| && vs[k].color in colors[..c + 1] :: vs[k].id in sp
  {
    forall k | 0 <= k < |vs| && vs[k].color in colors[..c + 1] ensures vs[k].id in sp {
      if vs[k].color == colors[c] {
        OfColorHas(vs, k);
      } else {
        assert vs[k].color in colors[..c];
      }
    }
  }

  /** The inner loop of `add_to_cart`: a line for each variant with id `id`. */
  method LinesOf(productName: string, vs: seq<VariantView>, id: int, qty: int) returns (lines: seq<CartLine>)
    ensures lines == LinesFor(productName, vs, id, qty)
  {
    lines := [];
    var j := 0;
    while j < |vs|
      invariant j <= |vs|
      invariant lines == LinesFor(productName, vs[..j], id, qty)
    {
      assert vs[..j + 1][..j] == vs[..j];
      if vs[j].id == id {
        lines := lines + [CartLine(vs[j].id, qty, vs[j].price, productName, vs[j].color, vs[j].size)];
      }
      j := j + 1;
    }
    assert vs[..j] == vs;
  }

  /** The outer loop of `add_to_cart`: the spin boxes in key order, those above 0 adding their lines. */
  method SelectedLines(product: ProductView, keys: seq<int>, spins: map<int, SpinBox>) returns (added: seq<CartLine>)
    requires forall j | 0 <= j < |keys| :: keys[j] in spins
    ensures added == Selection(product, keys, spins)
  {
    added := [];
    var i := 0;
    while i < |keys|
      invariant i <= |keys|
      invariant added == Selection(product, keys[..i], spins)
    {
      var id := keys[i];
      var qty := spins[id].value;
      assert keys[..i + 1][..i] == keys[..i];
      if qty > 0 {
        var lines := LinesOf(product.name, product.variants, id, qty);
        added := added + lines;
      }
      i := i + 1;
    }
    assert keys[..i] == keys;
  }

  class BuyDialog {
    const product: ProductView
    /** The keys of `self.spinboxes`, in insertion order. */
    var keys: seq<int>
    /** `self.spinboxes`: variant id to spin box. */
    var spins: map<int, SpinBox>
    /** `self.selected_items` */
    var selected: seq<CartLine>
    /** Whether the dialog was closed with `accept()`. */
    var accepted: bool

    /**
     * Each key is listed once and has a spin box whose value lies in its
     * range, which runs from 0 to the (non-negative part of the) stock of a
     * variant of the product with that id.
     */
    ghost predicate Valid()
      reads this
    {
      SpinsFit(product, keys, spins)
    }

    /** The dialog as built: one spin box per variant, all at 0. */
    constructor (product: ProductView)
      ensures Valid()
      ensures this.product == product && selected == [] && !accepted
      ensures keys == KeyOrder(product)
      ensures forall k | 0 <= k < |product.variants| :: product.variants[k].id in spins
      ensures forall id | id in spins :: spins[id].value == 0
    {
      this.product := product;
      selected := [];
      accepted := false;
      var ks, sp := BuildSpinBoxes(product);
      keys, spins := ks, sp;
    }

    /** The user turns the spin box of variant `id` to `q`. */
    method SetQuantity(id: int, q: int)
      requires Valid() && id in spins
      modifies this
      ensures Valid()
      ensures spins == old(spins)[id := SetValue(old(spins)[id], q)]
      ensures keys == old(keys) && selected == old(selected) && accepted == old(accepted)
    {
      spins := spins[id := SetValue(spins[id], q)];
    }

    /** `add_to_cart`: appends the selected lines and accepts the dialog. */
    method AddToCart()
      requires Valid()
      modifies this
      ensures Valid()
      ensures selected == old(selected) + Selection(product, keys, spins)
      ensures accepted
      ensures keys == old(keys) && spins == old(spins)
    {
      var added := SelectedLines(product, keys, spins);
      selected := selected + added;
      accepted := true;
    }
  }

  /** Every member of a colour group is a variant of that colour. */
  lemma {:induction false} OfColorMembers(vs: seq<VariantView>, c: string)
    ensures forall x | x in OfColor(vs, c) :: x in vs && x.color == c
  {
    if vs != [] {
      OfColorMembers(vs[..|vs| - 1], c);
    }
  }

  /** Every variant is in the group of its colour. */
  lemma {:induction false} OfColorHas(vs: seq<VariantView>, k: nat)
    requires k < |vs|
    ensures vs[k] in OfColor(vs, vs[k].color)
  {
    if k < |vs| - 1 {
      OfColorHas(vs[..|vs| - 1], k);
    }
  }

  /** The lines made for an id copy a variant with that id, with the given quantity. */
  lemma {:induction false} LinesForCopyVariant(productName: string, vs: seq<VariantView>, id: int, qty: int)
    ensures forall line | line in LinesFor(productName, vs, id, qty) ::
      exists k | 0 <= k < |vs| ::
        vs[k].id == id && line == CartLine(vs[k].id, qty, vs[k].price, productName, vs[k].color, vs[k].size)
  {
    if vs != [] {
      var p := vs[..|vs| - 1];
      LinesForCopyVariant(productName, p, id, qty);
      forall line | line in LinesFor(productName, vs, id, qty)
        ensures exists k | 0 <= k < |vs| ::
          vs[k].id == id && line == CartLine(vs[k].id, qty, vs[k].price, productName, vs[k].color, vs[k].size)
      {
        if line in LinesFor(productName, p, id, qty) {
          var k :| 0 <= k < |p| && p[k].id == id && line == CartLine(p[k].id, qty, p[k].price, productName, p[k].color, p[k].size);
          assert vs[k] == p[k];
        }
      }
    }
  }

  /** Every selected line comes from a spin box with a positive value. */
  lemma {:induction false} SelectionFromPositiveSpins(product: ProductView, keys: seq<int>, spins: map<int, SpinBox>)
    requires forall j | 0 <= j < |keys| :: keys[j] in spins
    ensures forall line | line in Selection(product, keys, spins) ::
      exists j | 0 <= j < |keys| ::
        spins[keys[j]].value > 0 && line in LinesFor(product.name, product.variants, keys[j], spins[keys[j]].value)
  {
    if keys != [] {
      var p := keys[..|keys| - 1];
      SelectionFromPositiveSpins(product, p, spins);
      forall line | line in Selection(product, keys, spins)
        ensures exists j | 0 <= j < |keys| ::
          spins[keys[j]].value > 0 && line in LinesFor(product.name, product.variants, keys[j], spins[keys[j]].value)
      {
        if line in Selection(product, p, spins) {
          var j :| 0 <= j < |p| && spins[p[j]].value > 0 && line in LinesFor(product.name, product.variants, p[j], spins[p[j]].value);
          assert keys[j] == p[j];
        }
      }
    }
  }

  /**
   * With the spin boxes in range and variant ids unique, every line
   * `add_to_cart` adds has a quantity between 1 and the stock of the
   * variant it names, and copies that variant's id, colour, size and price
   * and the product's name.
   */
  lemma SelectionWithinStock(product: ProductView, keys: seq<int>, spins: map<int, SpinBox>)
    requires SpinsFit(product, keys, spins) && UniqueIds(product.variants)
    ensures forall line | line in Selection(product, keys, spins) ::
      && 0 < line.quantity
      && line.productName == product.name
      && exists k | 0 <= k < |product.variants| ::
           var v := product.variants[k];
           && line.variantId == v.id && line.quantity <= v.stock
           && line.price == v.price && line.color == v.color && line.size == v.size
  {
    var vs := product.variants;
    SelectionFromPositiveSpins(product, keys, spins);
    forall line | line in Selection(product, keys, spins)
      ensures && 0 < line.quantity
              && line.productName == product.name
              && exists k | 0 <= k < |vs| ::
                   && line.variantId == vs[k].id && line.quantity <= vs[k].stock
                   && line.price == vs[k].price && line.color == vs[k].color && line.size == vs[k].size
    {
      var j :| 0 <= j < |keys| && spins[keys[j]].value > 0 && line in LinesFor(product.name, vs, keys[j], spins[keys[j]].value);
      var id := keys[j];
      var q := spins[id].value;
      LinesForCopyVariant(product.name, vs, id, q);
      var k :| 0 <= k < |vs| && vs[k].id == id && line == CartLine(vs[k].id, q, vs[k].price, product.name, vs[k].color, vs[k].size);
      var k' :| 0 <= k' < |vs| && vs[k'].id == id && spins[id] == NewSpinBox(vs[k'].stock).(value := q);
      assert k == k';
    }
  }

  /** Each variant whose spin box holds a positive value gets a line with that quantity. */
  lemma {:induction false} SelectionCoversChosen(product: ProductView, keys: seq<int>, spins: map<int, SpinBox>, j: nat, k: nat)
    requires forall i | 0 <= i < |keys| :: keys[i] in spins
    requires j < |keys| && spins[keys[j]].value > 0
    requires k < |product.variants| && product.variants[k].id == keys[j]
    ensures var v := product.variants[k];
      CartLine(v.id, spins[keys[j]].value, v.price, product.name, v.color, v.size) in Selection(product, keys, spins)
  {
    var v := product.variants[k];
    var line := CartLine(v.id, spins[keys[j]].value, v.price, product.name, v.color, v.size);
    if j < |keys| - 1 {
      SelectionCoversChosen(product, keys[..|keys| - 1], spins, j, k);
    } else {
      LinesForHas(product.name, product.variants, k, spins[keys[j]].value);
    }
  }

  lemma {:induction false} LinesForHas(productName: string, vs: seq<VariantView>, k: nat, qty: int)
    requires k < |vs|
    ensures CartLine(vs[k].id, qty, vs[k].price, productName, vs[k].color, vs[k].size) in LinesFor(productName, vs, vs[k].id, qty)
  {
    if k < |vs| - 1 {
      LinesForHas(productName, vs[..|vs| - 1], k, qty);
    }
  }
}
