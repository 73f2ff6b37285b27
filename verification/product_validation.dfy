/** The product rule applied when the catalog is loaded and again when a
    product is opened: a product is valid iff its trimmed title is non-empty
    and its price is either absent (`null`) or positive. The source has two
    copies, one that also logs a warning and one that does not. */
module ProductValidation {
  import opened Wrappers
  import opened Text
  import opened Products

  /** `ProductValidation.validate` of the utilities folder (the warning it
      logs on rejection does not influence the verdict). */
  function Validate(p: Product): (ok: bool)
    ensures ok <==> !Blank(p.title) && (p.price.None? || p.price.value > 0)
  {
    |Trim(p.title)| > 0 && (p.price.None? || p.price.value > 0)
  }

  /** `ProductValidation.validate` of the presenter folder: the same rule
      without the log call. */
  function ValidateQuiet(p: Product): (ok: bool)
    ensures ok <==> !Blank(p.title) && (p.price.None? || p.price.value > 0)
    ensures ok == Validate(p)
  {
    var hasValidTitle := |Trim(p.title)| > 0;
    var hasValidPrice := p.price == None || p.price.value > 0;
    hasValidTitle && hasValidPrice
  }

  /** The rule stated on the raw characters: some character of the title is
      visible, and the price is null or positive. */
  lemma ValidateCharacterised(p: Product)
    ensures Validate(p) <==>
              (exists i | 0 <= i < |p.title| :: !IsWhitespace(p.title[i]))
              && (p.price.None? || p.price.value > 0)
  {
  }

  /** A zero or negative price is rejected whatever the title. */
  lemma NonPositivePriceRejected(p: Product)
    requires p.price.Some? && p.price.value <= 0
    ensures !Validate(p) && !ValidateQuiet(p)
  {
  }

  /** A priceless product with a title that is not blank is accepted. */
  lemma PricelessAccepted(p: Product)
    requires p.price.None? && !Blank(p.title)
    ensures Validate(p) && ValidateQuiet(p)
  {
  }

  /** A blank title is rejected whatever the price. */
  lemma BlankTitleRejected(p: Product)
    requires Blank(p.title)
    ensures !Validate(p) && !ValidateQuiet(p)
  {
  }

  /** The verdict looks only at the title and the price. */
  lemma VerdictDependsOnTitleAndPrice(p: Product, q: Product)
    requires p.title == q.title && p.price == q.price
    ensures Validate(p) == Validate(q)
  {
  }

  /** The two copies of the rule agree on every product. */
  lemma CopiesAgree(p: Product)
    ensures Validate(p) == ValidateQuiet(p)
  {
  }

  /** The filtering example: an empty title and a zero price are rejected, a
      priceless and a priced "Pen" are accepted. */
  lemma CatalogExample()
    ensures !Validate(Product("1", "", "", Some(10), "", ""))
    ensures !Validate(Product("2", "Pen", "", Some(0), "", ""))
    ensures Validate(Product("3", "Pen", "", None, "", ""))
    ensures Validate(Product("4", "Pen", "", Some(5), "", ""))
  {
    assert !Blank("Pen") by { assert !IsWhitespace("Pen"[0]); }
  }
}
