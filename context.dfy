/** The per-user bounded conversation context of bot.py (`CONTEXT_LENGTH` and the
    append-then-slice steps of `handle_message`). */
module Context {

  /** One `(role, message)` tuple of `user_context`. */
  datatype Turn = Turn(role: string, msg: string)

  const UserRole: string := "user"
  const BotRole: string := "bot"

  /** `CONTEXT_LENGTH`. */
  const ContextLength: nat := 8

  function Min(a: int, b: int): int {
    if a <= b then a else b
  }

  /** Python's `s[-n:]` for a positive `n`: the last `n` elements in their original
      order, or all of `s` when it is shorter. */
  function KeepLast<T>(s: seq<T>, n: nat): (r: seq<T>)
    requires 0 < n
    ensures |r| == Min(n, |s|) && |r| <= n
  {
    s[|s| - Min(n, |s|)..]
  }

  /** The kept items are a suffix of the list, in their original order. */
  lemma KeepLastSuffix<T>(s: seq<T>, n: nat)
    requires 0 < n
    ensures s == s[..|s| - |KeepLast(s, n)|] + KeepLast(s, n)
    ensures forall k :: 0 <= k < |KeepLast(s, n)| ==> KeepLast(s, n)[k] == s[|s| - |KeepLast(s, n)| + k]
  {
  }

  /** Truncating between appends loses nothing that one truncation at the end would
      keep: the buffer is always the last `n` items of everything appended. */
  lemma {:induction false} KeepLastAppend<T>(s: seq<T>, t: seq<T>, n: nat)
    requires 0 < n
    ensures KeepLast(KeepLast(s, n) + t, n) == KeepLast(s + t, n)
  {
    var a, b := KeepLast(KeepLast(s, n) + t, n), KeepLast(s + t, n);
    assert |a| == |b|;
    forall k | 0 <= k < |a| ensures a[k] == b[k] {
      var u := KeepLast(s, n) + t;
      var m := |u| - |a| + k;
      if m < |KeepLast(s, n)| {
        assert a[k] == KeepLast(s, n)[m];
      } else {
        assert a[k] == t[m - |KeepLast(s, n)|];
      }
    }
  }

  /** One append followed by the slice `[-n:]`. */
  function Push<T>(buf: seq<T>, x: T, n: nat): seq<T>
    requires 0 < n
  {
    KeepLast(buf + [x], n)
  }

  /** A run of pushes, oldest first. */
  function PushAll<T>(buf: seq<T>, xs: seq<T>, n: nat): seq<T>
    requires 0 < n
    decreases |xs|
  {
    if xs == [] then buf else PushAll(Push(buf, xs[0], n), xs[1..], n)
  }

  /** Any number of pushes into a bounded buffer leaves exactly the last `n` items of
      the whole history, in order. */
  lemma {:induction false} PushAllKeepsRecent<T>(buf: seq<T>, xs: seq<T>, n: nat)
    requires 0 < n && |buf| <= n
    ensures PushAll(buf, xs, n) == KeepLast(buf + xs, n)
    decreases |xs|
  {
    if xs != [] {
      var b' := Push(buf, xs[0], n);
      assert |b'| <= n;
      calc {
        PushAll(buf, xs, n);
        PushAll(b', xs[1..], n);
        { PushAllKeepsRecent(b', xs[1..], n); }
        KeepLast(KeepLast(buf + [xs[0]], n) + xs[1..], n);
        { KeepLastAppend(buf + [xs[0]], xs[1..], n); }
        KeepLast(buf + [xs[0]] + xs[1..], n);
        { assert buf + [xs[0]] + xs[1..] == buf + xs; }
        KeepLast(buf + xs, n);
      }
    }
  }

  /** Ten pushes into an empty buffer of eight leave items 3..10. */
  lemma TenPushes()
    ensures PushAll([], [1, 2, 3, 4, 5, 6, 7, 8, 9, 10], 8) == [3, 4, 5, 6, 7, 8, 9, 10]
  {
    PushAllKeepsRecent([], [1, 2, 3, 4, 5, 6, 7, 8, 9, 10], 8);
    assert [1, 2, 3, 4, 5, 6, 7, 8, 9, 10][2..] == [3, 4, 5, 6, 7, 8, 9, 10];
  }

  /** The history handed to the prompt in one message cycle: the stored context with the
      user's turn appended, cut to its last `CONTEXT_LENGTH` turns. */
  function PromptHistory(ctx: seq<Turn>, msg: string): seq<Turn> {
    KeepLast(ctx + [Turn(UserRole, msg)], ContextLength)
  }

  /** The context stored back at the end of the cycle: the bot's turn appended to the
      prompt history, cut again. */
  function StoredContext(ctx: seq<Turn>, msg: string, botText: string): seq<Turn> {
    KeepLast(PromptHistory(ctx, msg) + [Turn(BotRole, botText)], ContextLength)
  }

  /** The prompt history holds at most eight turns and ends with the user's message. */
  lemma PromptHistoryShape(ctx: seq<Turn>, msg: string)
    ensures 1 <= |PromptHistory(ctx, msg)| <= ContextLength
    ensures PromptHistory(ctx, msg)[|PromptHistory(ctx, msg)| - 1] == Turn(UserRole, msg)
    ensures PromptHistory(ctx, msg) == KeepLast(ctx + [Turn(UserRole, msg)], ContextLength)
  {
  }

  /** The stored context holds between two and eight turns, ends with the user's turn
      followed by the bot's, and equals the last eight turns of the old context plus the
      two new ones (so the double truncation is the same as a single one). */
  lemma {:induction false} StoredContextShape(ctx: seq<Turn>, msg: string, botText: string)
    ensures 2 <= |StoredContext(ctx, msg, botText)| <= ContextLength
    ensures StoredContext(ctx, msg, botText) ==
      KeepLast(ctx + [Turn(UserRole, msg), Turn(BotRole, botText)], ContextLength)
    ensures var s := StoredContext(ctx, msg, botText);
      s[|s| - 2..] == [Turn(UserRole, msg), Turn(BotRole, botText)]
  {
    KeepLastAppend(ctx + [Turn(UserRole, msg)], [Turn(BotRole, botText)], ContextLength);
    assert ctx + [Turn(UserRole, msg)] + [Turn(BotRole, botText)] ==
      ctx + [Turn(UserRole, msg), Turn(BotRole, botText)];
    var s := StoredContext(ctx, msg, botText);
    var full := ctx + [Turn(UserRole, msg), Turn(BotRole, botText)];
    assert s[|s| - 1] == full[|full| - 1];
    assert s[|s| - 2] == full[|full| - 2];
  }
}
