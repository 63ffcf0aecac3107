/** The prompt construction and provider fallback of `ask_gemini` in bot.py. */
module Prompt {
  import opened Wrappers
  import opened Text
  import opened Context

  const HinglishInstruction: string :=
    "Reply ONLY in Hindi using English letters (Hinglish, not Devanagari script, not English, not Gujarati). "
    + "Do NOT use Devanagari script. Example: 'Aap kaise ho?' "
  const GujlishInstruction: string :=
    "Reply ONLY in Gujarati using English letters (Gujlish, not Gujarati script, not English, not Hindi). "
    + "Do NOT use Gujarati script. Example: 'Tame kem cho?' "
  const EnglishInstruction: string := "Reply ONLY in English."

  const Persona: string := "You are the user's real, friendly buddy. "
  const Casual: string := "Reply in a casual, warm, and natural way, as if you are a real person. "
  const Guidance: string :=
    " Always respond in a way that fits the user's mood and message, and adapt to any feeling or topic they share. "
    + "Break your reply into 2 to 4 short, realistic, consecutive messages, as if you are texting. "
    + "Separate each message with three vertical bars: |||. "
  const HistoryHeader: string := "Here is the recent conversation:\n"
  const ReplyCue: string := "Respond to what the user said: '"

  /** What `ask_gemini` returns when the provider call raises. The value is the one text of
      bot.py:99; it is written as three literal pieces only because the verifier cannot
      look up the characters of one long literal, while it can those of short ones. */
  const Apology: string := "Sorry, there " + "was an error " + "contacting the AI service."

  /** The language directive: one of three fixed texts, chosen by the code. */
  function LangInstruction(code: string): string {
    if code == "hi" then HinglishInstruction
    else if code == "gu" then GujlishInstruction
    else EnglishInstruction
  }

  /** Python truthiness of the optional first name: present and not empty. */
  predicate Truthy(name: Option<string>) {
    name.Some? && name.value != ""
  }

  function NamePart(name: Option<string>): string {
    if Truthy(name) then "Their name is " + name.value + ". " else ""
  }

  /** One history line: `User:` for the role 'user', `Buddy:` for any other role. */
  function Line(t: Turn): string {
    if t.role == UserRole then "User: " + t.msg + "\n" else "Buddy: " + t.msg + "\n"
  }

  /** The history lines, one per turn, in list order. */
  function Lines(ts: seq<Turn>): (lines: seq<string>)
    ensures |lines| == |ts| && forall k :: 0 <= k < |ts| ==> lines[k] == Line(ts[k])
  {
    seq(|ts|, k requires 0 <= k < |ts| => Line(ts[k]))
  }

  /** The rendered history: the lines concatenated, oldest first. */
  function History(ts: seq<Turn>): string {
    Concat(Lines(ts))
  }

  /** The pieces of the prompt f-string, in order. */
  function PromptPieces(msg: string, emotion: string, code: string, name: Option<string>, history: string): seq<string> {
    [Persona, NamePart(name), Casual, "The user is feeling ", emotion, ". ", LangInstruction(code),
     Guidance, HistoryHeader, history, ReplyCue, msg, "'"]
  }

  /** The prompt `ask_gemini` sends, given the rendered history. */
  function BuildPrompt(msg: string, emotion: string, code: string, name: Option<string>, history: string): string {
    Concat(PromptPieces(msg, emotion, code, name, history))
  }

  /** The reply `ask_gemini` returns for a provider outcome: the text, or the apology. */
  function Answer(result: Option<string>): string {
    match result
    case Some(text) => text
    case None => Apology
  }

  /** `ask_gemini`: renders the history with an accumulating loop, builds the prompt and
      asks the provider; `provider` stands for `generate_content(...).text`, `None` for an
      exception. */
  method AskGemini(msg: string, emotion: string, code: string, name: Option<string>,
                   contextList: seq<Turn>, provider: string -> Option<string>)
    returns (reply: string)
    ensures reply == Answer(provider(BuildPrompt(msg, emotion, code, name, History(contextList))))
    ensures provider(BuildPrompt(msg, emotion, code, name, History(contextList))) == None ==> reply == Apology
  {
    var history := "";
    for i := 0 to |contextList|
      invariant history == History(contextList[..i])
    {
      var t := contextList[i];
      assert History(contextList[..i + 1]) == History(contextList[..i]) + Line(t) by {
        assert contextList[..i + 1] == contextList[..i] + [t];
        HistoryLast(contextList[..i], t);
      }
      if t.role == UserRole {
        history := history + "User: " + t.msg + "\n";
      } else {
        history := history + "Buddy: " + t.msg + "\n";
      }
    }
    assert contextList[..|contextList|] == contextList;
    var prompt := BuildPrompt(msg, emotion, code, name, history);
    var result := provider(prompt);
    match result {
      case Some(text) => reply := text;
      case None => reply := Apology;
    }
  }

  /** The lines of a concatenation are the lines of each part, in turn. */
  lemma LinesAppend(a: seq<Turn>, b: seq<Turn>)
    ensures Lines(a + b) == Lines(a) + Lines(b)
  {
    var l, r := Lines(a + b), Lines(a) + Lines(b);
    forall k | 0 <= k < |l| ensures l[k] == r[k] {
      if k < |a| {
        assert (a + b)[k] == a[k];
      } else {
        assert (a + b)[k] == b[k - |a|];
      }
    }
  }

  /** Rendering distributes over concatenation, so turns appear line by line in order. */
  lemma HistoryAppend(a: seq<Turn>, b: seq<Turn>)
    ensures History(a + b) == History(a) + History(b)
  {
    LinesAppend(a, b);
    ConcatAppend(Lines(a), Lines(b));
  }

  /** Appending a turn appends its line: the `+=` step of the loop in `ask_gemini`. */
  lemma HistoryLast(s: seq<Turn>, x: Turn)
    ensures History(s + [x]) == History(s) + Line(x)
  {
    HistoryAppend(s, [x]);
    HistoryOne(x);
  }

  /** One turn renders as its line: "User: msg" for the role 'user', "Buddy: msg" else. */
  lemma HistoryOne(x: Turn)
    ensures History([x]) == Line(x)
    ensures History([x]) == if x.role == UserRole then "User: " + x.msg + "\n" else "Buddy: " + x.msg + "\n"
  {
    assert Lines([x]) == [Line(x)];
    ConcatOne(Line(x));
  }

  /** Exactly one of the three directives is chosen: Hinglish for "hi", Gujlish for "gu",
      English for every other code. */
  lemma LangInstructionChoice(code: string)
    ensures LangInstruction(code) == HinglishInstruction <==> code == "hi"
    ensures LangInstruction(code) == GujlishInstruction <==> code == "gu"
    ensures LangInstruction(code) == EnglishInstruction <==> code != "hi" && code != "gu"
  {
    assert |EnglishInstruction| < |GujlishInstruction| < |HinglishInstruction| by {
      assert |EnglishInstruction| == 22;
    }
  }

  /** The prompt ends with the history header, the rendered history and the quoted user
      message, in that order. */
  lemma PromptEnding(msg: string, emotion: string, code: string, name: Option<string>, history: string)
    ensures EndsWith(BuildPrompt(msg, emotion, code, name, history),
                     Concat([HistoryHeader, history, ReplyCue, msg, "'"]))
    ensures EndsWith(BuildPrompt(msg, emotion, code, name, history), Concat([ReplyCue, msg, "'"]))
  {
    var xs := PromptPieces(msg, emotion, code, name, history);
    ConcatEnds(xs, 8);
    assert xs[8..] == [HistoryHeader, history, ReplyCue, msg, "'"];
    ConcatEnds(xs, 10);
    assert xs[10..] == [ReplyCue, msg, "'"];
  }

  /** The prompt opens with the persona line and then the name clause when the name is
      truthy; otherwise there is no name clause, and the prompt is the one built without a
      name. */
  lemma PromptNameClause(msg: string, emotion: string, code: string, name: Option<string>, history: string)
    ensures Truthy(name) ==>
      StartsWith(BuildPrompt(msg, emotion, code, name, history),
                 Concat([Persona, "Their name is " + name.value + ". ", Casual]))
    ensures !Truthy(name) ==>
      BuildPrompt(msg, emotion, code, name, history) == BuildPrompt(msg, emotion, code, None, history) &&
      StartsWith(BuildPrompt(msg, emotion, code, name, history), Concat([Persona, "", Casual]))
  {
    var xs := PromptPieces(msg, emotion, code, name, history);
    ConcatEnds(xs, 3);
    assert xs[..3] == [Persona, NamePart(name), Casual];
  }

  /** The prompt states the detected mood, the chosen language directive, the history,
      the user's message and, for a truthy name, the name. */
  lemma PromptMentions(msg: string, emotion: string, code: string, name: Option<string>, history: string)
    ensures Contains(BuildPrompt(msg, emotion, code, name, history), emotion)
    ensures Contains(BuildPrompt(msg, emotion, code, name, history), LangInstruction(code))
    ensures Contains(BuildPrompt(msg, emotion, code, name, history), history)
    ensures Contains(BuildPrompt(msg, emotion, code, name, history), msg)
    ensures Truthy(name) ==> Contains(BuildPrompt(msg, emotion, code, name, history), name.value)
  {
    var xs := PromptPieces(msg, emotion, code, name, history);
    ConcatHas(xs, 4);
    ConcatHas(xs, 6);
    ConcatHas(xs, 9);
    ConcatHas(xs, 11);
    if Truthy(name) {
      ConcatHas(xs, 1);
      ContainsMiddle("Their name is ", name.value, ". ");
      ContainsTransitive(xs[1], name.value, Concat(xs));
    }
  }
}
