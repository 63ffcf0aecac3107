/** The keyword-based emotion classifier of bot.py (`EMOTION_KEYWORDS`, `detect_emotion`). */
module Emotions {
  import opened Text

  datatype Emotion = Happy | Sad | Angry | Fear | Surprised | Neutral {
    /** The label `detect_emotion` returns, which the prompt quotes. */
    function Name(): string {
      match this
      case Happy => "happy"
      case Sad => "sad"
      case Angry => "angry"
      case Fear => "fear"
      case Surprised => "surprised"
      case Neutral => "neutral"
    }
  }

  /** The order in which `detect_emotion` walks the table: the insertion order of the dict. */
  const Order: seq<Emotion> := [Happy, Sad, Angry, Fear, Surprised, Neutral]

  /** The keyword list of each emotion in `EMOTION_KEYWORDS`. */
  function Keywords(e: Emotion): seq<string> {
    match e
    case Happy => ["happy", "joy", "glad", "excited", "delighted"]
    case Sad => ["sad", "down", "unhappy", "depressed", "cry"]
    case Angry => ["angry", "mad", "furious", "annoyed", "irritated"]
    case Fear => ["afraid", "scared", "fear", "terrified", "nervous"]
    case Surprised => ["surprised", "amazed", "astonished", "shocked"]
    case Neutral => []
  }

  /** Position of an emotion in the walk; a lower rank takes precedence. */
  function Rank(e: Emotion): (k: nat)
    ensures k < |Order| && Order[k] == e
  {
    match e
    case Happy => 0
    case Sad => 1
    case Angry => 2
    case Fear => 3
    case Surprised => 4
    case Neutral => 5
  }

  /** Some keyword of `e` is a substring of `t`. */
  predicate Matches(e: Emotion, t: string) {
    exists w | w in Keywords(e) :: Contains(t, w)
  }

  /** The first emotion at position `k` or later in the walk with a keyword in `t`,
      or `Neutral` when there is none. */
  function FirstMatchFrom(k: nat, t: string): (r: Emotion)
    requires k <= |Order|
    decreases |Order| - k
    ensures r != Neutral ==> Matches(r, t) && k <= Rank(r)
    ensures forall j :: k <= j < Rank(r) ==> !Matches(Order[j], t)
  {
    if k == |Order| then Neutral
    else if Matches(Order[k], t) then Order[k]
    else FirstMatchFrom(k + 1, t)
  }

  /** What `detect_emotion` returns: the highest-precedence emotion one of whose keywords
      occurs in the lower-cased text; `Neutral` otherwise. */
  function Classify(text: string): Emotion {
    FirstMatchFrom(0, Lower(text))
  }

  /** The classifier's answer has a keyword in the lower-cased text (unless it is
      `Neutral`), and no emotion that comes before it in the walk has one. */
  lemma ClassifyPrecedence(text: string)
    ensures Classify(text) != Neutral ==> Matches(Classify(text), Lower(text))
    ensures forall e :: Rank(e) < Rank(Classify(text)) ==> !Matches(e, Lower(text))
  {
    var r := FirstMatchFrom(0, Lower(text));
    forall e | Rank(e) < Rank(r) ensures !Matches(e, Lower(text)) {
      assert Order[Rank(e)] == e;
    }
  }

  /** `detect_emotion`: two nested loops with an early return on the first hit. */
  method DetectEmotion(text: string) returns (r: Emotion)
    ensures r == Classify(text)
  {
    var t := Lower(text);
    for i := 0 to |Order|
      invariant FirstMatchFrom(i, t) == FirstMatchFrom(0, t)
    {
      var keywords := Keywords(Order[i]);
      for j := 0 to |keywords|
        invariant forall m :: 0 <= m < j ==> !Contains(t, keywords[m])
      {
        if Contains(t, keywords[j]) {
          assert Matches(Order[i], t);
          return Order[i];
        }
      }
      assert !Matches(Order[i], t) by {
        forall w | w in keywords ensures !Contains(t, w) {
          var m :| 0 <= m < |keywords| && keywords[m] == w;
        }
      }
    }
    return Neutral;
  }

  /** The two clauses of Classify's contract pin the result down: an emotion satisfies
      them exactly when it is the classifier's answer. */
  lemma ClassifyCharacterized(text: string, r: Emotion)
    ensures r == Classify(text) <==>
      (r != Neutral ==> Matches(r, Lower(text))) &&
      (forall e :: Rank(e) < Rank(r) ==> !Matches(e, Lower(text)))
  {
    ClassifyPrecedence(text);
    var c := Classify(text);
    if (r != Neutral ==> Matches(r, Lower(text))) &&
       (forall e :: Rank(e) < Rank(r) ==> !Matches(e, Lower(text))) {
      assert Rank(r) < Rank(c) ==> !Matches(r, Lower(text));
      assert Rank(c) < Rank(r) ==> !Matches(c, Lower(text));
      assert Order[Rank(r)] == r && Order[Rank(c)] == c;
    }
  }

  /** The result is `Neutral` exactly when no keyword of any emotion occurs. */
  lemma ClassifyNeutral(text: string)
    ensures Classify(text) == Neutral <==> forall e :: !Matches(e, Lower(text))
  {
    ClassifyPrecedence(text);
    if Classify(text) == Neutral {
      forall e ensures !Matches(e, Lower(text)) {
        if e != Neutral {
          assert Rank(e) < Rank(Neutral);
        }
      }
    }
  }

  /** "unhappy" in the sad list never decides anything: every text containing it also
      contains "happy", which is checked first. */
  lemma UnhappyShadowed(text: string)
    requires Contains(Lower(text), "unhappy")
    ensures Classify(text) == Happy
  {
    var t := Lower(text);
    var i :| 0 <= i <= |t| - 7 && OccursAt(t, "unhappy", i);
    assert t[i + 2..i + 7] == t[i..i + 7][2..];
    assert OccursAt(t, "happy", i + 2);
    assert "happy" in Keywords(Happy);
    assert Matches(Happy, t);
  }

  /** Precedence on a text with keywords of two emotions: happy wins over fear. */
  lemma HappyBeforeFear()
    ensures Classify("I am happy but scared") == Happy
  {
    var t := Lower("I am happy but scared");
    assert t == "i am happy but scared";
    assert OccursAt(t, "happy", 5);
    assert "happy" in Keywords(Happy);
  }

  /** The classifier always answers, the empty text included. */
  lemma EmptyIsNeutral()
    ensures Classify("") == Neutral
  {
    assert Lower("") == "";
    forall e ensures !Matches(e, "") {
      forall w | w in Keywords(e) ensures !Contains("", w) {
        assert |w| > 0;
      }
    }
    ClassifyNeutral("");
  }

  lemma SadExample()
    ensures Classify("I'm so sad today") == Sad
  {
    var t := Lower("I'm so sad today");
    assert t == "i'm so sad today";
    SadText(t);
    assert FirstMatchFrom(0, t) == FirstMatchFrom(1, t) == Sad;
  }

  /** The lower-cased text of that example has a sad keyword and no happy one. */
  lemma SadText(t: string)
    requires t == "i'm so sad today"
    ensures Matches(Sad, t) && !Matches(Happy, t)
  {
    assert OccursAt(t, "sad", 7);
    assert "sad" in Keywords(Sad);
    forall w | w in Keywords(Happy) ensures !Contains(t, w) {
      forall i | 0 <= i <= |t| - |w| ensures !OccursAt(t, w, i) {
        assert t[i..i + |w|][0] == t[i];
      }
    }
  }
}
