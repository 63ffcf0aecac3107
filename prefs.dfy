/** The language preference store of bot.py: `LANG_OPTIONS`, `get_user_lang` and the
    guard of the `/lang` command. The store itself, `user_lang`, is a field of
    `Relay.Bot`; these functions say what reading and writing it mean. */
module Prefs {

  /** `LANG_OPTIONS`: the accepted codes and the language name a confirmation quotes. */
  const LangOptions: map<string, string> :=
    map["en" := "English", "hi" := "Hindi using English letters", "gu" := "Gujarati using English letters"]

  const DefaultLang: string := "en"

  const Usage: string :=
    "Usage: /lang en|hi|gu\n'en' for English (default), 'hi' for Hinglish, 'gu' for Gujlish."

  /** `get_user_lang`: `user_lang.get(user_id, 'en')`. */
  function LangOf(store: map<int, string>, uid: int): string {
    if uid in store then store[uid] else DefaultLang
  }

  /** The guard of `set_lang`: `context.args and context.args[0] in LANG_OPTIONS`. */
  predicate Accepts(args: seq<string>) {
    |args| > 0 && args[0] in LangOptions
  }

  /** `user_lang` after `/lang args` sent by `uid`. */
  function SetLangStore(store: map<int, string>, uid: int, args: seq<string>): map<int, string> {
    if Accepts(args) then store[uid := args[0]] else store
  }

  /** The text `set_lang` replies with. */
  function SetLangReply(args: seq<string>): (reply: string)
    ensures Accepts(args) ==> reply == "Language set to " + LangOptions[args[0]] + "."
    ensures !Accepts(args) ==> reply == Usage
  {
    if Accepts(args) then "Language set to " + LangOptions[args[0]] + "." else Usage
  }

  /** The reply tells the user whether the command took effect: it is the usage text
      exactly when the command was rejected, since every confirmation is shorter. */
  lemma SetLangReplyTells(args: seq<string>)
    ensures SetLangReply(args) == Usage <==> !Accepts(args)
    ensures Accepts(args) ==> |SetLangReply(args)| <= 47 < |Usage|
  {
    assert |Usage| == 86;
    if Accepts(args) {
      var c := args[0];
      assert c == "en" || c == "hi" || c == "gu";
      assert |LangOptions[c]| <= 30;
    }
  }

  /** Every stored code is a key of `LANG_OPTIONS`. */
  ghost predicate ValidStore(store: map<int, string>) {
    forall u :: u in store ==> store[u] in LangOptions
  }

  /** An unset user reads the default; a set user reads the most recently stored code. */
  lemma LangOfDefault(store: map<int, string>, uid: int)
    requires uid !in store
    ensures LangOf(store, uid) == "en"
  {
  }

  /** After `/lang args` from `uid`, `uid` reads `args[0]` if the command was accepted
      and its old code otherwise; every other user reads what they read before. */
  lemma LangAfterSet(store: map<int, string>, uid: int, args: seq<string>, v: int)
    ensures LangOf(SetLangStore(store, uid, args), v) ==
      if v == uid && Accepts(args) then args[0] else LangOf(store, v)
  {
  }

  /** A rejected command changes nothing, and an accepted one changes only `uid`'s entry. */
  lemma SetLangFrame(store: map<int, string>, uid: int, args: seq<string>)
    ensures !Accepts(args) ==> SetLangStore(store, uid, args) == store
    ensures Accepts(args) ==> SetLangStore(store, uid, args) - {uid} == store - {uid}
  {
  }

  /** `set_lang` only ever stores accepted codes, so `get_user_lang` only ever returns one
      of "en", "hi" and "gu". */
  lemma ValidStoreKept(store: map<int, string>, uid: int, args: seq<string>, v: int)
    requires ValidStore(store)
    ensures ValidStore(SetLangStore(store, uid, args))
    ensures LangOf(store, v) in LangOptions
    ensures LangOf(store, v) == "en" || LangOf(store, v) == "hi" || LangOf(store, v) == "gu"
  {
  }

  /** The accepted codes are exactly "en", "hi" and "gu". */
  lemma AcceptedCodes(args: seq<string>)
    ensures Accepts(args) <==> |args| > 0 && (args[0] == "en" || args[0] == "hi" || args[0] == "gu")
  {
  }
}
