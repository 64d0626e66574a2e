/**
 * The text "soup" of a product: its name, category and description,
 * lower-cased and joined with single spaces.
 */
module Featurizer {
  import opened Wrappers
  import opened Text
  import opened Catalog

  /** The description as the soup reads it: a null description was filled with ''. */
  function DescriptionText(p: Product): string {
    p.description.GetOr("")
  }

  /**
   * `create_text_soup`: join the lower-cased fields with spaces, then collapse
   * whitespace. The soup is the single-space join of the whitespace-separated
   * words of the lower-cased name, category and description, in that order,
   * and so has no leading, trailing or repeated whitespace.
   */
  function TextSoup(p: Product): (soup: string)
    ensures Normalized(soup)
    ensures soup == JoinSpace(Words(Lower(p.name)) + Words(Lower(p.category)) + Words(Lower(DescriptionText(p))))
  {
    var n, c, d := Lower(p.name), Lower(p.category), Lower(DescriptionText(p));
    assert [n, c, d][1..] == [c, d] && [c, d][1..] == [d];
    assert JoinSpace([c, d]) == c + [' '] + d;
    assert JoinSpace([n, c, d]) == n + [' '] + (c + [' '] + d);
    WordsAppend(n, ' ', c + [' '] + d);
    WordsAppend(c, ' ', d);
    assert Words(JoinSpace([n, c, d])) == Words(n) + (Words(c) + Words(d));
    assert Words(n) + (Words(c) + Words(d)) == Words(n) + Words(c) + Words(d);
    CollapseNormalized(JoinSpace([n, c, d]));
    Collapse(JoinSpace([n, c, d]))
  }

  /** Re-splitting a soup gives back its words, so the soup loses no token. */
  lemma SoupWords(p: Product)
    ensures Words(TextSoup(p)) == Words(Lower(p.name)) + Words(Lower(p.category)) + Words(Lower(DescriptionText(p)))
  {
    WordsOfJoin(Words(Lower(p.name)) + Words(Lower(p.category)) + Words(Lower(DescriptionText(p))));
  }

  /** A null description and an empty one give the same soup. */
  lemma NullDescriptionIsEmpty(p: Product)
    ensures TextSoup(p.(description := None)) == TextSoup(p.(description := Some("")))
  {
  }

  /** The soup of every row, in row order. */
  function Soups(rows: seq<Product>): seq<string> {
    seq(|rows|, i requires 0 <= i < |rows| => TextSoup(rows[i]))
  }

  /** `[f(row) for row in rows]`, built by appending one result per row. */
  method MapRows(rows: seq<Product>, f: Product -> string) returns (out: seq<string>)
    ensures |out| == |rows|
    ensures forall k :: 0 <= k < |rows| ==> out[k] == f(rows[k])
  {
    out := [];
    var i := 0;
    while i < |rows|
      invariant 0 <= i <= |rows|
      invariant |out| == i
      invariant forall k :: 0 <= k < i ==> out[k] == f(rows[k])
    {
      out := out + [f(rows[i])];
      i := i + 1;
    }
  }

  /**
   * `prepare_text_data`: fails when the product table is not loaded, otherwise
   * one soup per product row, in row order.
   */
  method PrepareTextData(table: Option<seq<Product>>) returns (r: Result<seq<string>, Failure>)
    ensures table.None? <==> r == Err(DataNotLoaded)
    ensures table.Some? ==> r.Ok? && |r.value| == |table.value|
    ensures table.Some? ==> forall i :: 0 <= i < |table.value| ==> r.value[i] == TextSoup(table.value[i])
    ensures table.Some? ==> r == Ok(Soups(table.value))
  {
    if table.None? {
      return Err(DataNotLoaded);
    }
    var soups := MapRows(table.value, TextSoup);
    assert soups == Soups(table.value);
    return Ok(soups);
  }
}
