/** The handlers of bot.py that touch state: `set_lang` and `handle_message`, over the
    two process-wide dictionaries `user_lang` and `user_context`. */
module Relay {
  import opened Wrappers
  import opened Text
  import opened Emotions
  import opened Prefs
  import opened Context
  import opened Prompt
  import opened Splitter

  class Bot {
    /** `user_lang`: user id to language code. */
    var userLang: map<int, string>
    /** `user_context`: user id to its bounded list of turns. */
    var userContext: map<int, seq<Turn>>
    /** Every turn ever appended for each user, oldest first; the source keeps only the
        bounded buffer, this records what the buffer is a window of. */
    ghost var log: map<int, seq<Turn>>

    /** Stored codes are accepted ones, and each user's buffer is the last
        `CONTEXT_LENGTH` turns of that user's whole conversation. */
    ghost predicate Valid()
      reads this
    {
      && ValidStore(userLang)
      && Windows(userContext, log)
    }

    constructor ()
      ensures Valid()
      ensures userLang == map[] && userContext == map[] && log == map[]
    {
      userLang := map[];
      userContext := map[];
      log := map[];
    }

    /** `get_user_lang`: always one of the accepted codes, "en" for a user who never set one. */
    function GetUserLang(uid: int): (code: string)
      reads this
      ensures Valid() ==> code in LangOptions
      ensures uid !in userLang ==> code == DefaultLang
      ensures uid in userLang ==> code == userLang[uid]
    {
      LangOf(userLang, uid)
    }

    /** `user_context.get(user_id, [])`: never longer than `CONTEXT_LENGTH`, and the
        window of the user's whole conversation. */
    function ContextOf(uid: int): (ctx: seq<Turn>)
      reads this
      ensures Valid() ==> |ctx| <= ContextLength && ctx == KeepLast(LogOf(uid), ContextLength)
    {
      if uid in userContext then userContext[uid] else []
    }

    ghost function LogOf(uid: int): seq<Turn>
      reads this
    {
      if uid in log then log[uid] else []
    }

    /** `/lang args`: stores `args[0]` for `uid` when it is an accepted code and replies
        with a confirmation; otherwise changes nothing and replies with the usage text. */
    method SetLang(uid: int, args: seq<string>) returns (reply: string)
      requires Valid()
      modifies this
      ensures Valid()
      ensures userLang == SetLangStore(old(userLang), uid, args)
      ensures userContext == old(userContext) && log == old(log)
      ensures reply == SetLangReply(args)
      ensures Accepts(args) ==> uid in userLang && reply == "Language set to " + LangOptions[userLang[uid]] + "."
    {
      if |args| > 0 && args[0] in LangOptions {
        userLang := userLang[uid := args[0]];
        reply := "Language set to " + LangOptions[args[0]] + ".";
      } else {
        reply := Usage;
      }
    }

    /** `handle_message` for a text `msg` from `uid`: classify, look up the language,
        append the user's turn and cut, ask the provider, split the reply into the
        messages sent, append the bot's turn and cut again, store the buffer back. */
    method HandleMessage(uid: int, name: Option<string>, msg: string, provider: string -> Option<string>)
      returns (sent: seq<string>)
      requires Valid()
      modifies this
      ensures Valid()
      ensures sent == Split(Answer(provider(BuildPrompt(msg, Classify(msg).Name(), old(GetUserLang(uid)),
                                                        name, History(PromptHistory(old(ContextOf(uid)), msg))))))
      ensures userContext == old(userContext)[uid := StoredContext(old(ContextOf(uid)), msg, Join(sent, " "))]
      ensures log == old(log)[uid := old(LogOf(uid)) + [Turn(UserRole, msg), Turn(BotRole, Join(sent, " "))]]
      ensures userLang == old(userLang)
    {
      var langCode := GetUserLang(uid);
      var contextList := ContextOf(uid);
      ghost var before := contextList;
      contextList := Push(contextList, Turn(UserRole, msg), ContextLength);
      var botMessages := Respond(msg, name, langCode, contextList, provider);
      var botText := Join(botMessages, " ");
      contextList := Push(contextList, Turn(BotRole, botText), ContextLength);
      ghost var turns := LogOf(uid) + [Turn(UserRole, msg), Turn(BotRole, botText)];
      assert contextList == StoredContext(before, msg, botText);
      assert Windows(userContext[uid := contextList], log[uid := turns]) by {
        CycleWindow(LogOf(uid), before, msg, botText);
        WindowsUpdate(userContext, log, uid, contextList, turns);
      }
      userContext := userContext[uid := contextList];
      log := log[uid := turns];
      sent := botMessages;
    }
  }

  /** The stateless part of `handle_message`: classify the message, ask the provider with
      the prompt built from it and the history, and split the answer into messages. */
  method Respond(msg: string, name: Option<string>, langCode: string, history: seq<Turn>,
                 provider: string -> Option<string>)
    returns (sent: seq<string>)
    ensures sent == Split(Answer(provider(BuildPrompt(msg, Classify(msg).Name(), langCode, name, History(history)))))
  {
    var emotion := DetectEmotion(msg);
    var aiResponse := AskGemini(msg, emotion.Name(), langCode, name, history, provider);
    sent := Split(aiResponse);
  }

  /** Each user's buffer is the last `CONTEXT_LENGTH` turns of that user's log, and
      the two maps have the same users. */
  ghost predicate Windows(ctxs: map<int, seq<Turn>>, logs: map<int, seq<Turn>>) {
    && ctxs.Keys == logs.Keys
    && forall u :: u in ctxs ==> ctxs[u] == KeepLast(logs[u], ContextLength)
  }

  /** Replacing one user's buffer by the window of its extended log keeps every
      buffer a window. */
  lemma WindowsUpdate(ctxs: map<int, seq<Turn>>, logs: map<int, seq<Turn>>, uid: int,
                      buf: seq<Turn>, turns: seq<Turn>)
    requires Windows(ctxs, logs) && buf == KeepLast(turns, ContextLength)
    ensures Windows(ctxs[uid := buf], logs[uid := turns])
  {
  }

  /** A message cycle on a buffer that is the window of a log stores the window of the
      log extended by the user's and the bot's turns. */
  lemma CycleWindow(log: seq<Turn>, before: seq<Turn>, msg: string, botText: string)
    requires before == KeepLast(log, ContextLength)
    ensures StoredContext(before, msg, botText) ==
      KeepLast(log + [Turn(UserRole, msg), Turn(BotRole, botText)], ContextLength)
  {
    StoredContextShape(before, msg, botText);
    KeepLastAppend(log, [Turn(UserRole, msg), Turn(BotRole, botText)], ContextLength);
  }

  /** The apology is sent as one message, unchanged (stated over a parameter equal to
      the apology text so that the verifier does not evaluate the splitter on it). */
  lemma ApologySplit(a: string)
    requires a == Apology
    ensures Split(a) == [a]
    ensures Join([a], " ") == a
  {
    ApologyText("Sorry, there ", "was an error ", "contacting the AI service.");
    NoBarAvoidsDelimiter(a);
    SplitWhole(a);
    StripIdentity(a);
  }

  /** The apology holds no `|` and starts and ends with a non-space character. */
  lemma ApologyText(x: string, y: string, z: string)
    requires x == "Sorry, there " && y == "was an error " && z == "contacting the AI service."
    ensures NoBar(x + y + z) && Trimmed(x + y + z)
  {
    assert NoBar(x) && NoBar(y) && NoBar(z);
    assert (x + y + z)[0] == x[0];
  }

  /** A new user (id 1, first name "Sam", default language) says "I'm so sad today" and
      the provider fails: the one message sent is the apology, and the user's buffer is
      the user's turn followed by the apology. */
  method SadScenario() returns (sent: seq<string>, stored: seq<Turn>, code: string)
    ensures sent == [Apology]
    ensures stored == [Turn(UserRole, "I'm so sad today"), Turn(BotRole, Apology)]
    ensures code == "en"
  {
    var bot := new Bot();
    code := bot.GetUserLang(1);
    sent := bot.HandleMessage(1, Some("Sam"), "I'm so sad today", (p: string) => None);
    ApologySplit(Apology);
    stored := bot.userContext[1];
  }

  /** The prompt of that scenario names the user, the mood "sad" and the message, and
      carries the English directive. */
  lemma SadScenarioPrompt(msg: string)
    requires msg == "I'm so sad today"
    ensures var p := BuildPrompt(msg, Classify(msg).Name(), DefaultLang, Some("Sam"),
                                 History(PromptHistory([], msg)));
      Contains(p, "Sam") && Contains(p, "sad") && Contains(p, msg) && Contains(p, EnglishInstruction)
  {
    SadExample();
    LangInstructionChoice(DefaultLang);
    PromptMentions(msg, "sad", DefaultLang, Some("Sam"), History(PromptHistory([], msg)));
  }
}
