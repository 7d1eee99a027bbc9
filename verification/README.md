# Smart chat keyword router, modelled in Dafny

The smart chat tool takes a question, picks a local language model to answer it and sends the question to that model. The model is picked by `analyze_question`. It reads a routing table with three rules: `travel_questions`, `coding_questions` and `general_questions`. Each rule has a list of keywords and the model to use (`use_model`).

The router works like this:

- It lower-cases the question.
- It tests the rules in a fixed order: travel, then coding, then general.
- A rule matches when one of its keywords is a substring of the lower-cased question.
- The first rule that matches wins. The selection holds that rule's model, a reason and the category name. The reason lists every keyword of that rule found in the question, in configuration order.
- When no rule matches, the router returns a fixed selection. Its model is `phi-fast:latest` and its category is `default`.

The project has three files:

- `case_text.dfy` (module `CaseText`): ASCII lower-casing and Python's substring test `key in text`. The substring test is proved equal to "occurs at some position".
- `router.dfy` (module `Router`): the rule table, the selection, and `Analyze`, the router itself. It also has the `any(...)` test and the list comprehension that builds the reason.
- `router_properties.dfy` (module `RouterProperties`): lemmas about the router. They cover category priority, the fallback, which keywords the reason names, and how letter case is handled.

Each router function is pure, just like the Python function it models.

## Model

| member | source | states |
|---|---|---|
| CaseText.Lower | hands-on/json-mcp/smart_chat.py:24 | `question.lower()` keeps the length, lower-cases each ASCII letter on its own, and leaves no upper-case letter |
| CaseText.LowerOfLowerText | hands-on/json-mcp/smart_chat.py:24 | lower-casing a text that has no upper-case letter returns the same text |
| CaseText.LowerIdempotent | hands-on/json-mcp/smart_chat.py:24 | lower-casing twice gives the same result as lower-casing once |
| CaseText.Contains | hands-on/json-mcp/smart_chat.py:28 | `keyword in question_lower` is true exactly when the keyword occurs at some position of the text (so the empty keyword always occurs) |
| CaseText.UpperKeyNeverInLowered | hands-on/json-mcp/smart_chat.py:24-28 | a keyword with an upper-case letter never occurs in the lower-cased question, because only the question is lower-cased |
| CaseText.LowerKeyMatchesAnyCase | hands-on/json-mcp/smart_chat.py:24-28 | a lower-case keyword occurs in the lower-cased question exactly when it occurs in the original question with letter case ignored |
| Router.AnyMatch | hands-on/json-mcp/smart_chat.py:28 | the `any(...)` test is true exactly when some keyword of the list occurs in the text |
| Router.MatchedKeywords | hands-on/json-mcp/smart_chat.py:31 | the reason's keyword list holds only listed keywords that occur in the text; it is no longer than the rule's list; it is non-empty exactly when some keyword occurs |
| Router.Analyze | hands-on/json-mcp/smart_chat.py:22-58 | the selected model is the chosen rule's `use_model`, or `phi-fast:latest` for the default; the reason has the fallback form exactly when the category is default, and a default selection is exactly model `phi-fast:latest`, the fixed "No specific keywords detected" sentence and category default; otherwise the reason has the category's prefix and names at least one keyword |
| RouterProperties.TravelExactlyWhen | hands-on/json-mcp/smart_chat.py:27-33 | the category is travel exactly when a travel keyword occurs in the lower-cased question, whatever the other rules hold; the model is then the travel `use_model` |
| RouterProperties.CodingExactlyWhen | hands-on/json-mcp/smart_chat.py:36-42 | the category is coding exactly when no travel keyword occurs and some coding keyword does; the model is then the coding `use_model` |
| RouterProperties.GeneralExactlyWhen | hands-on/json-mcp/smart_chat.py:45-51 | the category is general exactly when no travel or coding keyword occurs and some general keyword does; the model is then the general `use_model` |
| RouterProperties.DefaultExactlyWhen | hands-on/json-mcp/smart_chat.py:54-58 | the category is default exactly when no keyword of any rule occurs; the selection is then model `phi-fast:latest`, the fixed "No specific keywords detected" sentence, and category default |
| RouterProperties.TravelWinsAnyCase | hands-on/json-mcp/smart_chat.py:24-33 | a lower-case travel keyword found in the question with letter case ignored routes the question to travel and its model |
| RouterProperties.ReasonListsMatchedKeywords | hands-on/json-mcp/smart_chat.py:29-51 | for a matched category, the reason's list is the keyword filter of that category's keywords over the lower-cased question, so it is in configuration order; it is non-empty; each keyword appears in it as often as that category lists it when it occurs in the lower-cased question, and otherwise not at all |
| RouterProperties.MatchedKeywordsCount | hands-on/json-mcp/smart_chat.py:31 | the keyword filter keeps every occurring keyword with its full multiplicity and drops every other keyword |
| RouterProperties.MatchedKeywordsAppend | hands-on/json-mcp/smart_chat.py:31 | the keyword filter keeps configuration order: filtering two lists joined together gives the two filtered lists joined together |
| RouterProperties.ReasonKeywordsAreLower | hands-on/json-mcp/smart_chat.py:24-49 | no keyword named in a reason has an upper-case letter |
| RouterProperties.AnalyzeSeesOnlyLowered | hands-on/json-mcp/smart_chat.py:24 | the selection for the lower-cased question equals the selection for the question, so two questions with the same lower-case form get the same selection |
| RouterProperties.CategoryNamesDistinct | hands-on/json-mcp/smart_chat.py:32-57 | the four category strings `travel_questions`, `coding_questions`, `general_questions` and `default` are pairwise different |
| RouterProperties.ExampleTripToParis | hands-on/json-mcp/smart_chat.py:27-33 | with travel keywords `paris` and `trip`, the question "best trip to paris" goes to travel, and the reason names both keywords in configuration order |
| RouterProperties.ExampleUpperCaseQuestion | hands-on/json-mcp/smart_chat.py:24-33 | the keyword `paris` matches the question "PARIS is lovely" |

## Left out

- `load_routing_config` (smart_chat.py:12-20): it reads a file and parses JSON. The model takes the parsed table as a `Rules` value. The Python code looks up each rule only when it reaches that rule. A missing rule or `keywords` entry raises `KeyError` when the router reaches that rule (smart_chat.py:27, :36, :45). For travel that happens on every call. For coding or general it happens only after every earlier category has failed to match. A missing `use_model` raises only when its category wins (:30, :39, :48). `Rules` always holds all three rules with both entries, so these error paths are not modelled.
- `call_ollama` (smart_chat.py:60-107): it runs `curl` as a subprocess to call the local inference server. It also has a 60-second timeout and measures wall-clock time. All of this is I/O.
- `main` (smart_chat.py:109-150): it checks the argument count, prints output and sets the exit status.
- CaseText.Lower: only ASCII letters are lower-cased. Python's `str.lower()` uses the full Unicode case tables, and a few characters become more than one character. That behaviour is not modelled.
- Router.Analyze: the reason is a prefix plus the list of matched keywords. The Python code formats that list with its `repr` text, brackets and quotes included. That text is not reproduced.
- Rule keywords are typed as strings. A configuration whose keyword list holds a value of another JSON type is not modelled.
