/**
 * The keyword router of the smart chat tool: given a question and the
 * routing rules read from the configuration, it picks the language model
 * that should answer, together with a reason and a category.
 *
 * Categories are tested in a fixed order (travel, coding, general); the
 * first whose keyword list has a keyword occurring in the lower-cased
 * question wins, and when none does a fixed default selection is returned.
 */
module Router {
  import opened CaseText

  /** One routing rule: its keywords, in configuration order, and its model. */
  datatype Rule = Rule(keywords: seq<string>, useModel: string)

  /** The routing table: exactly the three categories the router reads. */
  datatype Rules = Rules(travel: Rule, coding: Rule, general: Rule)

  datatype Category = Travel | Coding | General | Default {
    /** The category string placed in the selection. */
    function Name(): string {
      match this
      case Travel => "travel_questions"
      case Coding => "coding_questions"
      case General => "general_questions"
      case Default => "default"
    }
  }

  /**
   * Why a model was chosen: the fixed text before the keyword list and the
   * keywords found, or the fixed sentence of the fallback.
   */
  datatype Reason = Detected(prefix: string, keywords: seq<string>) | NoKeywords(text: string)

  datatype Selection = Selection(model: string, reason: Reason, category: Category)

  const DefaultModel: string := "phi-fast:latest"
  const DefaultReason: string := "No specific keywords detected, using default general model"

  /** The selection returned when no category matches. */
  const DefaultSelection: Selection := Selection(DefaultModel, NoKeywords(DefaultReason), Default)

  /** The rule the router reads for a configured category. */
  function RuleFor(rules: Rules, c: Category): Rule
    requires c != Default
  {
    match c
    case Travel => rules.travel
    case Coding => rules.coding
    case General => rules.general
  }

  /** The text the reason starts with for a configured category. */
  function DetectedPrefix(c: Category): string
    requires c != Default
  {
    match c
    case Travel => "Detected travel keywords: "
    case Coding => "Detected coding keywords: "
    case General => "Detected general keywords: "
  }

  /** The model a selection of category `c` must carry. */
  function ModelFor(rules: Rules, c: Category): string {
    if c == Default then DefaultModel else RuleFor(rules, c).useModel
  }

  /** Some keyword of the list occurs in `text` (reference definition). */
  ghost predicate Mentions(keywords: seq<string>, text: string) {
    exists k :: k in keywords && Contains(text, k)
  }

  /** `any(keyword in text for keyword in keywords)`. */
  function AnyMatch(keywords: seq<string>, text: string): (r: bool)
    ensures r <==> Mentions(keywords, text)
  {
    if keywords == [] then false
    else Contains(text, keywords[0]) || AnyMatch(keywords[1..], text)
  }

  /**
   * `[k for k in keywords if k in text]`: every keyword that occurs, each
   * as often as the configuration lists it, in configuration order.
   */
  function MatchedKeywords(keywords: seq<string>, text: string): (r: seq<string>)
    ensures |r| <= |keywords|
    ensures forall k :: k in r ==> k in keywords && Contains(text, k)
    ensures r != [] <==> Mentions(keywords, text)
  {
    if keywords == [] then []
    else
      var rest := MatchedKeywords(keywords[1..], text);
      assert forall i :: 0 < i < |keywords| ==> keywords[i] == keywords[1..][i - 1];
      (if Contains(text, keywords[0]) then [keywords[0]] else []) + rest
  }

  /** The selection for a configured category that matched `text`. */
  function Chosen(rules: Rules, c: Category, text: string): Selection
    requires c != Default
  {
    Selection(RuleFor(rules, c).useModel,
              Detected(DetectedPrefix(c), MatchedKeywords(RuleFor(rules, c).keywords, text)),
              c)
  }

  /** `analyze_question(question, routing_rules)`. */
  function Analyze(question: string, rules: Rules): (s: Selection)
    ensures s.model == ModelFor(rules, s.category)
    ensures s.category == Default <==> s.reason.NoKeywords?
    ensures s.category == Default ==> s == DefaultSelection
    ensures s.reason.Detected? ==> s.reason.prefix == DetectedPrefix(s.category) && s.reason.keywords != []
  {
    var text := Lower(question);
    if AnyMatch(rules.travel.keywords, text) then Chosen(rules, Travel, text)
    else if AnyMatch(rules.coding.keywords, text) then Chosen(rules, Coding, text)
    else if AnyMatch(rules.general.keywords, text) then Chosen(rules, General, text)
    else DefaultSelection
  }
}
