/**
 * `AIExplainerService`: the one-sentence explanation shown with a
 * recommendation. The generative model's reply enters as an input: `None`
 * when the call (or reading its text) raised, `Some(text)` otherwise.
 */
module Explainer {
  import opened Wrappers
  import opened Text
  import opened Catalog

  /** The example key shipped in the environment template, treated as no key. */
  const PlaceholderKey := "your_gemini_api_key_here"

  const Opening := "Because you liked"

  /** The service holds a client or not; it is available exactly when it holds one. */
  datatype AIExplainerService = AIExplainerService(hasClient: bool)

  predicate IsAvailable(s: AIExplainerService) {
    s.hasClient
  }

  /**
   * `_initialize_client`: no client for a missing, empty or placeholder key;
   * otherwise a client exactly when the SDK calls succeed (`sdkOk`).
   */
  function InitializeClient(apiKey: Option<string>, sdkOk: bool): (s: AIExplainerService)
    ensures IsAvailable(s) <==> apiKey.Some? && apiKey.value != "" && apiKey.value != PlaceholderKey && sdkOk
  {
    if apiKey.None? || apiKey.value == "" || apiKey.value == PlaceholderKey then AIExplainerService(false)
    else AIExplainerService(sdkOk)
  }

  /** The opening both fallback sentences share. */
  function FallbackLead(source: Product, rec: Product): string {
    Opening + " " + source.name + Enjoy + rec.name + " "
  }

  const Enjoy := ", we think you'll also enjoy "
  const BothIn := "as they're both in the "
  const CategoryWord := " category"
  const GenericEnd := "based on similar product features and user preferences."

  /**
   * `_get_fallback_explanation`: the shared opening, then the recommended
   * product's category when the two categories are equal, else a generic ending.
   */
  function FallbackExplanation(source: Product, rec: Product): (r: string)
    ensures StartsWith(r, FallbackLead(source, rec))
    ensures source.category == rec.category ==> EndsWith(r, BothIn + rec.category + CategoryWord + ".")
    ensures source.category != rec.category ==> EndsWith(r, GenericEnd)
  {
    var lead := FallbackLead(source, rec);
    var tail := if source.category == rec.category then BothIn + rec.category + CategoryWord + "." else GenericEnd;
    assert (lead + tail)[..|lead|] == lead;
    assert (lead + tail)[|lead + tail| - |tail|..] == tail;
    lead + tail
  }

  lemma InThree(a: string, x: string, b: string)
    ensures Contains(a + x + b, x)
  {
    ContainsSelf(x);
    ContainsRight(a, x, x);
    ContainsLeft(a + x, b, x);
  }

  /** The inner pieces of a left-nested concatenation occur in it. */
  lemma InConcat(a: string, x: string, b: string, y: string, c: string)
    ensures Contains(a + x + b + y + c, x) && Contains(a + x + b + y + c, y)
  {
    ContainsSelf(x);
    ContainsRight(a, x, x);
    ContainsLeft(a + x, b, x);
    ContainsLeft(a + x + b, y, x);
    ContainsLeft(a + x + b + y, c, x);
    ContainsSelf(y);
    ContainsRight(a + x + b, y, y);
    ContainsLeft(a + x + b + y, c, y);
  }

  /** The fallback names both products, and the shared category when there is one. */
  lemma FallbackMentions(source: Product, rec: Product)
    ensures var r := FallbackExplanation(source, rec);
      Contains(r, Opening + " " + source.name) && Contains(r, rec.name)
    ensures source.category == rec.category ==>
      Contains(FallbackExplanation(source, rec), rec.category + CategoryWord)
  {
    var opening := Opening + " " + source.name;
    var tail := if source.category == rec.category then BothIn + rec.category + CategoryWord + "." else GenericEnd;
    ContainsSelf(opening);
    ContainsLeft(opening, Enjoy, opening);
    InThree(opening + Enjoy, rec.name, " ");
    ContainsLeft(opening + Enjoy + rec.name + " ", tail, rec.name);
    ContainsLeft(opening + Enjoy, rec.name, opening);
    ContainsLeft(opening + Enjoy + rec.name, " ", opening);
    ContainsLeft(opening + Enjoy + rec.name + " ", tail, opening);
    if source.category == rec.category {
      InThree(BothIn, rec.category + CategoryWord, ".");
      assert tail == BothIn + (rec.category + CategoryWord) + ".";
      ContainsRight(opening + Enjoy + rec.name + " ", tail, rec.category + " category");
    }
  }

  /** The normalisation applied to a generated reply. */
  function Normalize(source: Product, reply: string): string {
    var e := Strip(reply);
    if StartsWith(Lower(e), "because you liked") then e
    else Opening + " " + source.name + ", " + Lower(e)
  }

  /**
   * `generate_explanation`: the fallback when the service is unavailable or
   * the call raised; otherwise the stripped reply if, lower-cased, it already
   * opens with "because you liked", else that opening, the source name and the
   * lower-cased stripped reply.
   */
  function GenerateExplanation(s: AIExplainerService, source: Product, rec: Product, reply: Option<string>)
    : (r: string)
    ensures !IsAvailable(s) || reply.None? ==> r == FallbackExplanation(source, rec)
    ensures IsAvailable(s) && reply.Some? && StartsWith(Lower(Strip(reply.value)), "because you liked") ==>
      r == Strip(reply.value)
    ensures IsAvailable(s) && reply.Some? && !StartsWith(Lower(Strip(reply.value)), "because you liked") ==>
      r == Opening + " " + source.name + ", " + Lower(Strip(reply.value))
  {
    if !IsAvailable(s) then FallbackExplanation(source, rec)
    else match reply
      case None => FallbackExplanation(source, rec)
      case Some(text) => Normalize(source, text)
  }

  lemma LowerOpening()
    ensures Lower(Opening) == "because you liked"
  {
  }

  /** On every path the explanation, lower-cased, opens with "because you liked". */
  lemma ExplanationOpensWithBecauseYouLiked(s: AIExplainerService, source: Product, rec: Product, reply: Option<string>)
    ensures StartsWith(Lower(GenerateExplanation(s, source, rec, reply)), "because you liked")
  {
    var r := GenerateExplanation(s, source, rec, reply);
    LowerOpening();
    if !IsAvailable(s) || reply.None? || !StartsWith(Lower(Strip(reply.value)), "because you liked") {
      var rest := r[|Opening|..];
      if !IsAvailable(s) || reply.None? {
        var f := FallbackExplanation(source, rec);
        assert f == FallbackLead(source, rec) + f[|FallbackLead(source, rec)|..];
      }
      assert r == Opening + rest;
      assert StartsWith(r, Opening);
      LowerKeepsPrefix(r, Opening);
    }
  }

  /** The explanation never depends on the reply when the service has no client. */
  lemma UnavailableIgnoresReply(source: Product, rec: Product, a: Option<string>, b: Option<string>)
    ensures GenerateExplanation(AIExplainerService(false), source, rec, a)
         == GenerateExplanation(AIExplainerService(false), source, rec, b)
  {
  }

  const PromptHead := "You are a helpful e-commerce assistant that explains product recommendations in a friendly, conversational tone.\n\nA user was interested in '"
  const CategoryOpen := "' (Category: "
  const PromptMiddle := "). \nWe are now recommending '"
  const TailLead := ").\n\nIn a single, friendly sentence, explain why this is a good recommendation. Start with '"
  const TailEnd := "...' and make it sound natural and helpful."
  const PromptTail := TailLead + Opening + TailEnd

  /** `_build_prompt`: the instruction text around both products' names and categories. */
  function BuildPrompt(source: Product, rec: Product): (p: string)
    ensures Contains(p, source.name) && Contains(p, source.category)
    ensures Contains(p, rec.name) && Contains(p, rec.category)
    ensures Contains(p, Opening)
  {
    var first := PromptHead + source.name + CategoryOpen + source.category + PromptMiddle;
    var p := first + rec.name + CategoryOpen + rec.category + PromptTail;
    InConcat(PromptHead, source.name, CategoryOpen, source.category, PromptMiddle);
    InConcat(first, rec.name, CategoryOpen, rec.category, PromptTail);
    ContainsLeft(first, rec.name, source.name);
    ContainsLeft(first + rec.name, CategoryOpen, source.name);
    ContainsLeft(first + rec.name + CategoryOpen, rec.category, source.name);
    ContainsLeft(first + rec.name + CategoryOpen + rec.category, PromptTail, source.name);
    ContainsLeft(first, rec.name, source.category);
    ContainsLeft(first + rec.name, CategoryOpen, source.category);
    ContainsLeft(first + rec.name + CategoryOpen, rec.category, source.category);
    ContainsLeft(first + rec.name + CategoryOpen + rec.category, PromptTail, source.category);
    ContainsSelf(Opening);
    ContainsRight(TailLead, Opening, Opening);
    ContainsLeft(TailLead + Opening, TailEnd, Opening);
    ContainsRight(first + rec.name + CategoryOpen + rec.category, PromptTail, Opening);
    p
  }
}
