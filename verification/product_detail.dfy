/** The variant-selection rules of the product detail page: which colour and
    size are selected after loading, which variant the selection denotes,
    which colour and size buttons are disabled, when "add to cart" is
    disabled, and the image list of the gallery. The two fetches are oracle
    parameters; React's effect that recomputes the selected variant is
    applied after every state change that can trigger it. */
module ProductDetail {
  import opened Remote
  import opened Sequences

  /** One purchasable variant of a product. */
  datatype Variant = Variant(id: string, color: string, size: string, quantity: int, imageUrls: seq<string>)

  /** The fields of a product the selection logic passes on. */
  datatype Product = Product(id: string, name: string, imageUrl: string)

  /** The page's state hooks that the selection logic reads and writes. */
  datatype Page = Page(
    product: Option<Product>,
    variants: seq<Variant>,
    selectedColor: string,
    selectedSize: string,
    selectedVariant: Option<Variant>,
    loading: bool,
    error: bool)

  /** The state before the first render's effects run. */
  const Mounted := Page(None, [], "", "", None, true, false)

  predicate Matches(v: Variant, color: string, size: string)
  {
    v.color == color && v.size == size
  }

  /** `variants.find(v => v.color === color && v.size === size)`, as the
      position of the first match. */
  function FindIndex(vs: seq<Variant>, color: string, size: string): (r: Option<nat>)
    ensures r.Some? ==> r.value < |vs| && Matches(vs[r.value], color, size)
    ensures r.Some? ==> forall j :: 0 <= j < r.value ==> !Matches(vs[j], color, size)
    ensures r.None? ==> forall j :: 0 <= j < |vs| ==> !Matches(vs[j], color, size)
  {
    if |vs| == 0 then None
    else if Matches(vs[0], color, size) then Some(0)
    else match FindIndex(vs[1..], color, size)
      case None => None
      case Some(i) => Some(i + 1)
  }

  /** `selected || null` for the search above. */
  function FindVariant(vs: seq<Variant>, color: string, size: string): (r: Option<Variant>)
    ensures r.Some? ==> r.value in vs && Matches(r.value, color, size)
    ensures r.None? <==> forall v :: v in vs ==> !Matches(v, color, size)
    ensures r.Some? ==> FindIndex(vs, color, size).Some? && r.value == vs[FindIndex(vs, color, size).value]
  {
    match FindIndex(vs, color, size)
    case None => None
    case Some(i) => Some(vs[i])
  }

  /** The effect on `[selectedColor, selectedSize, variants]`: it only runs
      its search when there are variants, otherwise the previous selected
      variant stays. */
  function SyncSelected(p: Page): (r: Page)
    ensures r.(selectedVariant := p.selectedVariant) == p
    ensures |p.variants| == 0 ==> r == p
    ensures |p.variants| > 0 && r.selectedVariant.Some? ==>
              && r.selectedVariant.value in p.variants
              && Matches(r.selectedVariant.value, p.selectedColor, p.selectedSize)
    ensures |p.variants| > 0 ==> r.selectedVariant == FindVariant(p.variants, p.selectedColor, p.selectedSize)
  {
    if |p.variants| > 0 then p.(selectedVariant := FindVariant(p.variants, p.selectedColor, p.selectedSize))
    else p
  }

  /** `fetchProductData` followed by the selection effect. Nothing is fetched
      without a route id; a failed product fetch skips the variant fetch;
      either failure sets the error and keeps the earlier variants and
      selection (the effect's dependencies do not change, so it does not
      run). A successful variant fetch sets a new list, which re-runs the
      effect; a non-empty list first selects its first variant's colour and
      size. */
  function Load(p: Page, id: string, product: Response<Product>, variants: Response<seq<Variant>>): (r: Page)
    ensures id == "" ==> r == p
    ensures id != "" ==> !r.loading
    ensures id != "" ==> (r.error <==> product.Failed? || variants.Failed?)
    ensures id != "" && r.error ==> r.variants == p.variants
    ensures id != "" && product.Ok? ==> r.product == Some(product.data)
    ensures id != "" && product.Failed? ==> r == p.(loading := false, error := true)
    ensures id != "" && product.Ok? && variants.Failed? ==>
              r == p.(product := Some(product.data), loading := false, error := true)
    ensures id != "" && !r.error ==> r.variants == variants.data && Synced(r)
  {
    if id == "" then p
    else
      var started := p.(loading := true, error := false);
      if product.Failed? then started.(error := true, loading := false)
      else
        var withProduct := started.(product := Some(product.data));
        if variants.Failed? then withProduct.(error := true, loading := false)
        else
          var vs := variants.data;
          var withVariants := withProduct.(variants := vs);
          var selected :=
            if |vs| > 0 then withVariants.(selectedColor := vs[0].color, selectedSize := vs[0].size)
            else withVariants;
          SyncSelected(selected.(loading := false))
  }

  /** `variants.filter(v => v.color === color)`: the size buttons shown for a
      colour, and the variants summed for its stock. Exactly the variants of
      that colour, each as often as it occurs, in their order. */
  function OfColor(vs: seq<Variant>, color: string): (r: seq<Variant>)
    ensures forall v :: v in r <==> v in vs && v.color == color
    ensures IsSubsequence(r, vs)
    ensures forall v :: multiset(r)[v] == if v.color == color then multiset(vs)[v] else 0
  {
    if |vs| == 0 then []
    else
      assert vs == [vs[0]] + vs[1..];
      if vs[0].color == color then [vs[0]] + OfColor(vs[1..], color)
      else OfColor(vs[1..], color)
  }

  /** `reduce((acc, v) => acc + v.quantity, 0)`. */
  function SumQuantity(vs: seq<Variant>): int
  {
    if |vs| == 0 then 0 else vs[0].quantity + SumQuantity(vs[1..])
  }

  /** `variants.map(v => v.color)`. */
  function ColorList(vs: seq<Variant>): (r: seq<string>)
    ensures |r| == |vs| && forall i :: 0 <= i < |vs| ==> r[i] == vs[i].color
  {
    if |vs| == 0 then [] else [vs[0].color] + ColorList(vs[1..])
  }

  /** The colour buttons: every colour of the variants once, in the order
      of its first variant. */
  function Colors(vs: seq<Variant>): (r: seq<string>)
    ensures forall c :: c in r <==> exists v :: v in vs && v.color == c
    ensures forall c :: c in r <==> c in ColorList(vs)
    ensures NoDuplicates(r)
    ensures forall i, j :: 0 <= i < j < |r| ==>
              FirstIndex(ColorList(vs), r[i]) < FirstIndex(ColorList(vs), r[j])
  {
    var cs := ColorList(vs);
    assert forall c :: c in cs ==> exists v :: v in vs && v.color == c by {
      forall c | c in cs
        ensures exists v :: v in vs && v.color == c
      {
        var k := FirstIndex(cs, c);
        assert vs[k] in vs;
      }
    }
    Distinct(cs)
  }

  /** A colour button is disabled when the stock over its variants is 0. */
  predicate ColorDisabled(vs: seq<Variant>, color: string)
  {
    SumQuantity(OfColor(vs, color)) == 0
  }

  /** A size button is disabled when its variant has quantity 0. */
  predicate SizeDisabled(v: Variant)
  {
    v.quantity == 0
  }

  /** Clicking a colour button: a disabled button changes nothing; an
      enabled one selects the colour, keeps the size, and the effect
      searches again. */
  function ClickColor(p: Page, color: string): (r: Page)
    requires exists v :: v in p.variants && v.color == color
    ensures ColorDisabled(p.variants, color) ==> r == p
    ensures !ColorDisabled(p.variants, color) ==>
              r.(selectedVariant := p.selectedVariant) == p.(selectedColor := color)
    ensures !ColorDisabled(p.variants, color) ==>
              r.selectedVariant == FindVariant(p.variants, color, p.selectedSize)
  {
    if ColorDisabled(p.variants, color) then p
    else SyncSelected(p.(selectedColor := color))
  }

  /** Clicking the size button of a variant shown for the selected colour. */
  function ClickSize(p: Page, v: Variant): (r: Page)
    requires v in p.variants && v.color == p.selectedColor
    ensures SizeDisabled(v) ==> r == p
    ensures !SizeDisabled(v) ==>
              r.(selectedVariant := p.selectedVariant) == p.(selectedSize := v.size)
    ensures !SizeDisabled(v) ==>
              r.selectedVariant == FindVariant(p.variants, p.selectedColor, v.size)
  {
    if SizeDisabled(v) then p
    else SyncSelected(p.(selectedSize := v.size))
  }

  /** The `disabled` flag passed to the add-to-cart button. */
  predicate AddToCartDisabled(p: Page)
  {
    p.selectedVariant.None? || p.selectedVariant.value.quantity == 0
  }

  /** `variants.flatMap(v => v.imageUrls)`. */
  function Gallery(vs: seq<Variant>): seq<string>
  {
    if |vs| == 0 then [] else vs[0].imageUrls + Gallery(vs[1..])
  }

  function ImageCount(vs: seq<Variant>): nat
  {
    if |vs| == 0 then 0 else |vs[0].imageUrls| + ImageCount(vs[1..])
  }

  /** A successful load with variants selects the first variant: its colour,
      its size, and the variant itself (it is the first that matches), so
      "add to cart" is disabled exactly when the first variant is sold out. */
  lemma LoadSelectsFirst(p: Page, id: string, product: Product, vs: seq<Variant>)
    requires id != "" && |vs| > 0
    ensures var r := Load(p, id, Ok(product), Ok(vs));
            && r.selectedColor == vs[0].color && r.selectedSize == vs[0].size
            && r.selectedVariant == Some(vs[0])
            && !r.error && !r.loading && r.variants == vs
            && (AddToCartDisabled(r) <==> vs[0].quantity == 0)
  {
  }

  /** A successful load of an empty variant list keeps the earlier selection,
      including a selected variant left from an earlier product. */
  lemma LoadEmptyKeepsSelection(p: Page, id: string, product: Product)
    requires id != ""
    ensures var r := Load(p, id, Ok(product), Ok([]));
            && r.selectedColor == p.selectedColor && r.selectedSize == p.selectedSize
            && r.selectedVariant == p.selectedVariant && r.variants == []
  {
  }

  /** On a freshly mounted page, a failed load leaves nothing selected and
      "add to cart" disabled. */
  lemma FailedFirstLoad(id: string, product: Response<Product>, vs: Response<seq<Variant>>)
    requires id != "" && (product.Failed? || vs.Failed?)
    ensures var r := Load(Mounted, id, product, vs);
            r.error && r.selectedVariant.None? && AddToCartDisabled(r) && r.variants == []
  {
  }

  /** The page invariant kept by the selection effect: with variants loaded,
      the selected variant is the first variant with the selected colour and
      size, if any. */
  predicate Synced(p: Page)
  {
    |p.variants| > 0 ==> p.selectedVariant == FindVariant(p.variants, p.selectedColor, p.selectedSize)
  }

  /** A synced page with variants selects one of the size buttons of the
      selected colour, carrying the selected size; and it selects nothing
      only when no variant has the selected colour and size. */
  lemma SyncedSelection(p: Page)
    requires Synced(p) && |p.variants| > 0
    ensures p.selectedVariant.Some? ==>
              && p.selectedVariant.value in OfColor(p.variants, p.selectedColor)
              && p.selectedVariant.value.size == p.selectedSize
    ensures p.selectedVariant.None? <==>
              forall v :: v in OfColor(p.variants, p.selectedColor) ==> v.size != p.selectedSize
  {
  }

  /** Every transition of the page keeps it synced. */
  lemma TransitionsKeepSynced(p: Page, id: string, product: Response<Product>, vs: Response<seq<Variant>>,
                              color: string, v: Variant)
    requires Synced(p)
    ensures Synced(Load(p, id, product, vs))
    ensures color in Colors(p.variants) ==> Synced(ClickColor(p, color))
    ensures v in OfColor(p.variants, p.selectedColor) ==> Synced(ClickSize(p, v))
  {
  }

  /** Clicking an enabled size selects a variant of that colour and size,
      which the user can add to the cart unless that variant is sold out. */
  lemma ClickSizeSelects(p: Page, v: Variant)
    requires v in OfColor(p.variants, p.selectedColor) && !SizeDisabled(v)
    ensures var r := ClickSize(p, v);
            && r.selectedVariant.Some?
            && Matches(r.selectedVariant.value, p.selectedColor, v.size)
  {
  }

  /** A colour with stock is listed, and switching to it when it lacks the
      selected size leaves no variant selected, so "add to cart" becomes
      disabled. */
  lemma ClickColorWithoutSize(p: Page, color: string)
    requires !ColorDisabled(p.variants, color)
    requires forall v :: v in p.variants && v.color == color ==> v.size != p.selectedSize
    ensures color in Colors(p.variants)
    ensures ClickColor(p, color).selectedVariant.None?
    ensures AddToCartDisabled(ClickColor(p, color))
  {
    var shown := OfColor(p.variants, color);
    assert |shown| > 0;
    assert shown[0] in p.variants && shown[0].color == color;
  }

  /** With non-negative stock, a colour is disabled exactly when every one of
      its variants is sold out. */
  lemma {:induction false} ColorDisabledIffSoldOut(vs: seq<Variant>, color: string)
    requires forall v :: v in vs ==> v.quantity >= 0
    ensures ColorDisabled(vs, color) <==> forall v :: v in vs && v.color == color ==> v.quantity == 0
  {
    SoldOutSum(OfColor(vs, color));
  }

  lemma {:induction false} SoldOutSum(vs: seq<Variant>)
    requires forall v :: v in vs ==> v.quantity >= 0
    ensures SumQuantity(vs) >= 0
    ensures SumQuantity(vs) == 0 <==> forall v :: v in vs ==> v.quantity == 0
  {
    if |vs| > 0 {
      assert forall v :: v in vs[1..] ==> v in vs;
      SoldOutSum(vs[1..]);
      assert forall v :: v in vs ==> v == vs[0] || v in vs[1..];
    }
  }

  /** Every colour button has at least one size button. */
  lemma ColorHasSizes(vs: seq<Variant>, color: string)
    requires color in Colors(vs)
    ensures |OfColor(vs, color)| > 0
  {
    var v :| v in vs && v.color == color;
    assert v in OfColor(vs, color);
  }

  /** The gallery lists every variant's images in variant order: it splits
      along any split of the variants, and its length is the total number
      of images. */
  lemma {:induction false} GalleryConcat(a: seq<Variant>, b: seq<Variant>)
    ensures Gallery(a + b) == Gallery(a) + Gallery(b)
    ensures |Gallery(a)| == ImageCount(a)
  {
    if |a| > 0 {
      GalleryConcat(a[1..], b);
      assert (a + b)[1..] == a[1..] + b;
    } else {
      assert a + b == b;
    }
  }
}
