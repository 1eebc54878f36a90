/** Context budgeting of the knowledge manager: trimming chat history and
    retrieved passages to token budgets, merging metadata into loaded
    documents, and assembling the inputs of one chat completion.

    The token counter of the language model is the parameter `cost`; the
    vector-store search and the prompt completion are the parameters
    `search` and `complete`. */
module KnowledgeManager {
  import opened Common
  import opened TokenBudget

  /** A retrieved or loaded passage. The core reads its text and updates its
      metadata dictionary in place. */
  class Document {
    const pageContent: string
    var metadata: map<string, string>

    constructor (pageContent: string, metadata: map<string, string>)
      ensures this.pageContent == pageContent && this.metadata == metadata
    {
      this.pageContent := pageContent;
      this.metadata := metadata;
    }
  }

  /** The knowledge manager's two budgets (the constructor defaults them to
      800 and 3000). */
  datatype Settings = Settings(conversationLimit: int, docsLimit: int)

  /** Name used for the assistant's lines unless another is given. */
  const AiName := "AgritechAI"

  const Separator := "\n\n"

  function HumanLine(humanMsg: string): string { "Human: " + humanMsg }

  function AiLine(aiName: string, aiMsg: string): string { aiName + ": " + aiMsg }

  /** Tokens a turn consumes: the human line only, or both lines. */
  function TurnCost(cost: string -> nat, turn: (string, string), humanOnly: bool, aiName: string): nat
  {
    if humanOnly then cost(HumanLine(turn.0))
    else cost(HumanLine(turn.0)) + cost(AiLine(aiName, turn.1))
  }

  function TurnCosts(cost: string -> nat, history: seq<(string, string)>, humanOnly: bool, aiName: string): (cs: seq<nat>)
    ensures |cs| == |history|
  {
    seq(|history|, i requires 0 <= i < |history| => TurnCost(cost, history[i], humanOnly, aiName))
  }

  /** How a kept history is rendered: human lines only, or each turn as a
      human line and an assistant line separated by a blank line; the parts
      are separated by blank lines. */
  function RenderHistory(kept: seq<(string, string)>, humanOnly: bool, aiName: string): (r: string)
    ensures r == "" <==> kept == []
    ensures kept != [] ==> HumanLine(kept[0].0) <= r
  {
    if humanOnly then
      Join(Separator, seq(|kept|, i requires 0 <= i < |kept| => HumanLine(kept[i].0)))
    else
      Join(Separator, seq(|kept|, i requires 0 <= i < |kept| =>
        HumanLine(kept[i].0) + Separator + AiLine(aiName, kept[i].1)))
  }

  /** Number of leading turns that fit into the budget. */
  function KeptTurns(cost: string -> nat, history: seq<(string, string)>, tokensLimit: int, humanOnly: bool, aiName: string): (k: nat)
    ensures k <= |history|
  {
    PrefixWithin(TurnCosts(cost, history, humanOnly, aiName), tokensLimit)
  }

  /** The text `format_messages` produces. */
  function FormattedHistory(cost: string -> nat, history: seq<(string, string)>, tokensLimit: int, humanOnly: bool, aiName: string): string
  {
    RenderHistory(history[..KeptTurns(cost, history, tokensLimit, humanOnly, aiName)], humanOnly, aiName)
  }

  /** Walks the history oldest-first with a running total and stops at the
      first turn whose inclusion would exceed the limit. */
  method FormatMessages(chatHistory: seq<(string, string)>, tokensLimit: int, cost: string -> nat,
                        humanOnly: bool, aiName: string)
    returns (r: string)
    ensures r == FormattedHistory(cost, chatHistory, tokensLimit, humanOnly, aiName)
  {
    ghost var costs := TurnCosts(cost, chatHistory, humanOnly, aiName);
    var humanLines: seq<string> := [];
    var cleanedPairs: seq<(string, string)> := [];
    var tokensUsed: int := 0;
    var i := 0;
    while i < |chatHistory|
      invariant 0 <= i <= |chatHistory|
      invariant tokensUsed == Sum(costs[..i])
      invariant 0 < i ==> tokensUsed <= tokensLimit
      invariant humanOnly ==> humanLines == seq(i, j requires 0 <= j < i => HumanLine(chatHistory[j].0))
      invariant !humanOnly ==> cleanedPairs == seq(i, j requires 0 <= j < i => (HumanLine(chatHistory[j].0), AiLine(aiName, chatHistory[j].1)))
    {
      var (humanMsg, aiMsg) := chatHistory[i];
      var humanMsgFormatted := "Human: " + humanMsg;
      var aiMsgFormatted := aiName + ": " + aiMsg;
      var humanTokens := cost(humanMsgFormatted);
      var aiTokens := cost(aiMsgFormatted);
      var newTokensUsed;
      if !humanOnly {
        newTokensUsed := tokensUsed + humanTokens + aiTokens;
      } else {
        newTokensUsed := tokensUsed + humanTokens;
      }
      SumPrefixStep(costs, i);
      if newTokensUsed > tokensLimit {
        break;
      }
      if humanOnly {
        humanLines := humanLines + [humanMsgFormatted];
      } else {
        cleanedPairs := cleanedPairs + [(humanMsgFormatted, aiMsgFormatted)];
      }
      tokensUsed := newTokensUsed;
      i := i + 1;
    }
    PrefixWithinUnique(costs, tokensLimit, i);
    ghost var kept := chatHistory[..i];
    if humanOnly {
      r := Join(Separator, humanLines);
      assert humanLines == seq(|kept|, j requires 0 <= j < |kept| => HumanLine(kept[j].0));
    } else {
      r := Join(Separator, seq(|cleanedPairs|, j requires 0 <= j < |cleanedPairs| =>
        cleanedPairs[j].0 + Separator + cleanedPairs[j].1));
      assert seq(|cleanedPairs|, j requires 0 <= j < |cleanedPairs| => cleanedPairs[j].0 + Separator + cleanedPairs[j].1)
          == seq(|kept|, j requires 0 <= j < |kept| => HumanLine(kept[j].0) + Separator + AiLine(aiName, kept[j].1));
    }
  }

  /** The kept turns fit the limit (a total equal to the limit is accepted),
      and when some turn is left out, adding the first one left out would
      exceed the limit. */
  lemma KeptTurnsFitAndAreMaximal(cost: string -> nat, history: seq<(string, string)>, tokensLimit: int, humanOnly: bool, aiName: string)
    ensures var k := KeptTurns(cost, history, tokensLimit, humanOnly, aiName);
            var costs := TurnCosts(cost, history, humanOnly, aiName);
            (tokensLimit >= 0 ==> Sum(costs[..k]) <= tokensLimit) &&
            (k < |history| ==> Sum(costs[..k]) + TurnCost(cost, history[k], humanOnly, aiName) > tokensLimit)
  {
    var costs := TurnCosts(cost, history, humanOnly, aiName);
    var k := KeptTurns(cost, history, tokensLimit, humanOnly, aiName);
    if tokensLimit >= 0 {
      PrefixWithinFits(costs, tokensLimit);
    }
    if k < |history| {
      SumPrefixStep(costs, k);
    }
  }

  /** An empty history, or one whose first turn alone is over the limit,
      formats to the empty string. */
  lemma FormattedHistoryEmpty(cost: string -> nat, history: seq<(string, string)>, tokensLimit: int, humanOnly: bool, aiName: string)
    requires history == [] || TurnCost(cost, history[0], humanOnly, aiName) > tokensLimit
    ensures FormattedHistory(cost, history, tokensLimit, humanOnly, aiName) == ""
  {
    var costs := TurnCosts(cost, history, humanOnly, aiName);
    if history != [] {
      assert costs[0] > tokensLimit;
    }
  }

  /** The human-only rendering keeps at least as many turns as the full one,
      because it counts only the human lines. */
  lemma HumanOnlyKeepsAtLeastAsMany(cost: string -> nat, history: seq<(string, string)>, tokensLimit: int, aiName: string)
    ensures KeptTurns(cost, history, tokensLimit, false, aiName) <= KeptTurns(cost, history, tokensLimit, true, aiName)
  {
    PrefixWithinAntitone(TurnCosts(cost, history, true, aiName), TurnCosts(cost, history, false, aiName), tokensLimit);
  }

  /** In human-only mode the assistant's replies play no part: two histories
      with the same human messages give the same text. */
  lemma HumanOnlyIgnoresReplies(cost: string -> nat, h1: seq<(string, string)>, h2: seq<(string, string)>, tokensLimit: int, aiName: string)
    requires |h1| == |h2|
    requires forall i :: 0 <= i < |h1| ==> h1[i].0 == h2[i].0
    ensures FormattedHistory(cost, h1, tokensLimit, true, aiName) == FormattedHistory(cost, h2, tokensLimit, true, aiName)
  {
    assert TurnCosts(cost, h1, true, aiName) == TurnCosts(cost, h2, true, aiName);
    var k := KeptTurns(cost, h1, tokensLimit, true, aiName);
    assert seq(k, i requires 0 <= i < k => HumanLine(h1[..k][i].0))
        == seq(k, i requires 0 <= i < k => HumanLine(h2[..k][i].0));
  }

  /** Turns after the first one that overflows are never examined: appending
      more history to a history that already overflows changes nothing. */
  lemma LaterTurnsNeverExamined(cost: string -> nat, history: seq<(string, string)>, later: seq<(string, string)>,
                                tokensLimit: int, humanOnly: bool, aiName: string)
    requires KeptTurns(cost, history, tokensLimit, humanOnly, aiName) < |history|
    ensures FormattedHistory(cost, history + later, tokensLimit, humanOnly, aiName)
         == FormattedHistory(cost, history, tokensLimit, humanOnly, aiName)
  {
    var costs := TurnCosts(cost, history, humanOnly, aiName);
    var extra := TurnCosts(cost, later, humanOnly, aiName);
    assert TurnCosts(cost, history + later, humanOnly, aiName) == costs + extra;
    PrefixWithinIgnoresRest(costs, extra, tokensLimit);
    var k := KeptTurns(cost, history, tokensLimit, humanOnly, aiName);
    assert (history + later)[..k] == history[..k];
  }

  /** Token cost of each passage's text. */
  function PassageCosts(cost: string -> nat, docs: seq<Document>): (cs: seq<nat>)
    ensures |cs| == |docs|
  {
    seq(|docs|, i requires 0 <= i < |docs| => cost(docs[i].pageContent))
  }

  /** Drops passages from the tail while the total is over the limit. The
      result is the longest prefix that fits, the same prefix a front-to-back
      scan keeps; a first passage over the limit leaves nothing. */
  method ReduceTokensBelowLimit(docs: seq<Document>, docsLimit: int, cost: string -> nat)
    returns (r: seq<Document>)
    requires docsLimit >= 0
    ensures r == docs[..PrefixWithin(PassageCosts(cost, docs), docsLimit)]
    ensures Sum(PassageCosts(cost, r)) <= docsLimit
    ensures |r| < |docs| ==> Sum(PassageCosts(cost, docs[..|r| + 1])) > docsLimit
    ensures Sum(PassageCosts(cost, docs)) <= docsLimit ==> r == docs
  {
    var numDocs := |docs|;
    var tokens := PassageCosts(cost, docs);
    assert tokens[..numDocs] == tokens;
    assert tokens[..0] == [];
    var tokenCount: int := Sum(tokens[..numDocs]);
    while tokenCount > docsLimit
      invariant 0 <= numDocs <= |docs|
      invariant tokenCount == Sum(tokens[..numDocs])
      invariant numDocs < |docs| ==> Sum(tokens[..numDocs + 1]) > docsLimit
      decreases numDocs
    {
      assert numDocs > 0;  // an empty prefix costs 0, which is within a non-negative limit
      numDocs := numDocs - 1;
      SumPrefixStep(tokens, numDocs);
      tokenCount := tokenCount - tokens[numDocs];
    }
    PrefixWithinUnique(tokens, docsLimit, numDocs);
    PrefixWithinAll(tokens, docsLimit);
    r := docs[..numDocs];
    assert PassageCosts(cost, r) == tokens[..numDocs];
    assert numDocs < |docs| ==> PassageCosts(cost, docs[..numDocs + 1]) == tokens[..numDocs + 1];
  }

  /** A passage that alone costs more than the limit is dropped: the result is
      empty, not the passage. */
  lemma OverBudgetFirstPassageDropped(cost: string -> nat, docs: seq<Document>, docsLimit: int)
    requires docs != [] && cost(docs[0].pageContent) > docsLimit
    ensures docs[..PrefixWithin(PassageCosts(cost, docs), docsLimit)] == []
  {
    assert PassageCosts(cost, docs)[0] > docsLimit;
  }

  /** Merges `metadata` into every document's metadata in place (later keys
      override existing ones) and hands back the same list. */
  method AddMetadataToDocs(metadata: map<string, string>, docs: seq<Document>) returns (r: seq<Document>)
    modifies set d | d in docs
    ensures r == docs
    ensures forall d :: d in docs ==> d.metadata == old(d.metadata) + metadata
  {
    var i := 0;
    while i < |docs|
      invariant 0 <= i <= |docs|
      invariant forall d :: d in docs ==> d.metadata == if d in docs[..i] then old(d.metadata) + metadata else old(d.metadata)
    {
      var document := docs[i];
      ghost var before := document.metadata;
      document.metadata := document.metadata + metadata;
      assert document in docs[..i] ==> before + metadata == before;
      i := i + 1;
    }
    assert docs[..i] == docs;
    r := docs;
  }

  /** What the prompt template is filled with. */
  datatype Prompt = Prompt(helpData: string, conversation: string, question: string)

  /** The page contents of the passages, in order. */
  function PageContents(docs: seq<Document>): (cs: seq<string>)
    ensures |cs| == |docs|
  {
    seq(|docs|, i requires 0 <= i < |docs| => docs[i].pageContent)
  }

  /** The text of the passages that survive trimming. */
  function HelpData(docs: seq<Document>): (r: string)
    ensures docs == [] ==> r == ""
    ensures docs != [] ==> docs[0].pageContent <= r
    ensures docs != [] ==> |r| == TotalLength(PageContents(docs)) + |Separator| * (|docs| - 1)
  {
    Join(Separator, PageContents(docs))
  }

  /** One chat turn: render the history in full and human-only form (both
      under the conversation limit), search with the human-only text followed
      by the new question, trim the passages to the document limit, and
      complete the prompt. A failing search or completion is passed on. */
  method Chat(query: string, chatHistory: seq<(string, string)>, settings: Settings, cost: string -> nat,
              search: string -> Result<seq<Document>>, complete: Prompt -> Result<string>)
    returns (r: Result<string>)
    requires settings.docsLimit >= 0
    ensures var conversation := FormattedHistory(cost, chatHistory, settings.conversationLimit, false, AiName);
            var combined := FormattedHistory(cost, chatHistory, settings.conversationLimit, true, AiName) + "\n" + HumanLine(query);
            r == match search(combined)
                 case Failure(e) => Failure(e)
                 case Success(found) =>
                   var kept := found[..PrefixWithin(PassageCosts(cost, found), settings.docsLimit)];
                   complete(Prompt(HelpData(kept), conversation, query))
  {
    var conversation := FormatMessages(chatHistory, settings.conversationLimit, cost, false, AiName);
    var humanOnly := FormatMessages(chatHistory, settings.conversationLimit, cost, true, AiName);
    var combined := humanOnly + "\n" + "Human: " + query;
    assert combined == humanOnly + "\n" + HumanLine(query);
    var found := search(combined);
    if found.Failure? {
      return Failure(found.error);
    }
    var docs := ReduceTokensBelowLimit(found.value, settings.docsLimit, cost);
    r := complete(Prompt(HelpData(docs), conversation, query));
  }

  /** Concrete budgets, as the code behaves. */
  lemma BudgetScenarios()
    ensures PrefixWithin([50, 50, 50], 120) == 2
    ensures PrefixWithin([30, 30, 30, 30], 65) == 2
    ensures PrefixWithin([100, 500, 10], 120) == 1
    ensures PrefixWithin([500], 100) == 0
    ensures PrefixWithin([10], 0) == 0
  {
  }
}
