/**
 How an alert rule matches a message: the rule's text, put between two `%`, is a pattern of PostgreSQL's
 ILIKE (src/alert.rs:27). In a pattern `%` stands for any text, `_` for any one character, and a backslash
 takes the next character literally. Letter case is folded for ASCII letters only here.
 */
module MessagePatterns {
  import opened Json

  predicate Like(text: string, pattern: string)
    decreases |text| + |pattern|
  {
    if pattern == "" then text == ""
    else if pattern[0] == '%' then Like(text, pattern[1..]) || (text != "" && Like(text[1..], pattern))
    else if pattern[0] == '_' then text != "" && Like(text[1..], pattern[1..])
    else if pattern[0] == '\\' && |pattern| > 1 then
      text != "" && LowerChar(text[0]) == LowerChar(pattern[1]) && Like(text[1..], pattern[2..])
    else text != "" && LowerChar(text[0]) == LowerChar(pattern[0]) && Like(text[1..], pattern[1..])
  }

  /** `message ILIKE '%' || wanted || '%'`. */
  predicate Matches(message: string, wanted: string)
  {
    Like(message, "%" + wanted + "%")
  }

  /** What the rule is documented to do: look for a substring, whatever its case. */
  ghost predicate Contains(message: string, wanted: string)
  {
    exists i :: 0 <= i <= |message| - |wanted| && StartsAt(message, wanted, i)
  }

  predicate StartsAt(message: string, wanted: string, i: nat)
    requires i + |wanted| <= |message|
  {
    forall k :: 0 <= k < |wanted| ==> LowerChar(message[i + k]) == LowerChar(wanted[k])
  }

  predicate Special(c: char)
  {
    c == '%' || c == '_' || c == '\\'
  }

  predicate Plain(wanted: string)
  {
    forall k :: 0 <= k < |wanted| ==> !Special(wanted[k])
  }

  lemma {:induction false} AnyTail(text: string)
    ensures Like(text, "%")
    decreases |text|
  {
    if text == "" {
      assert Like("", "%"[1..]);
    } else {
      AnyTail(text[1..]);
    }
  }

  /** A plain text followed by anything is matched at the start. */
  lemma {:induction false} PlainPrefix(text: string, wanted: string)
    requires Plain(wanted)
    ensures Like(text, wanted + "%") <==> |wanted| <= |text| && StartsAt(text, wanted, 0)
    decreases |wanted|
  {
    if wanted == "" {
      assert wanted + "%" == "%";
      AnyTail(text);
    } else {
      var rest := wanted[1..];
      assert (wanted + "%")[0] == wanted[0] && (wanted + "%")[1..] == rest + "%";
      assert !Special(wanted[0]);
      if text != "" {
        PlainPrefix(text[1..], rest);
        if |wanted| <= |text| {
          StartsLater(text, wanted);
        }
      }
    }
  }

  lemma StartsLater(text: string, wanted: string)
    requires text != "" && wanted != "" && |wanted| <= |text|
    ensures StartsAt(text, wanted, 0) <==>
              LowerChar(text[0]) == LowerChar(wanted[0]) && StartsAt(text[1..], wanted[1..], 0)
  {
    var t, w := text[1..], wanted[1..];
    if StartsAt(t, w, 0) && LowerChar(text[0]) == LowerChar(wanted[0]) {
      forall k | 0 <= k < |wanted| ensures LowerChar(text[k]) == LowerChar(wanted[k]) {
        assert k > 0 ==> LowerChar(t[k - 1]) == LowerChar(w[k - 1]);
      }
    }
    if StartsAt(text, wanted, 0) {
      forall k | 0 <= k < |w| ensures LowerChar(t[k]) == LowerChar(w[k]) {
        assert LowerChar(text[k + 1]) == LowerChar(wanted[k + 1]);
      }
    }
  }

  lemma ContainedLater(text: string, wanted: string)
    requires text != ""
    ensures Contains(text, wanted) <==> (|wanted| <= |text| && StartsAt(text, wanted, 0)) || Contains(text[1..], wanted)
  {
    if i :| 0 < i <= |text| - |wanted| && StartsAt(text, wanted, i) {
      assert StartsAt(text[1..], wanted, i - 1);
    }
    if i :| 0 <= i <= |text| - 1 - |wanted| && StartsAt(text[1..], wanted, i) {
      forall k | 0 <= k < |wanted| ensures LowerChar(text[i + 1 + k]) == LowerChar(wanted[k]) {
        assert text[i + 1 + k] == text[1..][i + k];
      }
      assert StartsAt(text, wanted, i + 1);
    }
  }

  /** Without special characters the pattern finds exactly the messages that contain the text. */
  lemma {:induction false} PlainTextIsContained(message: string, wanted: string)
    requires Plain(wanted)
    ensures Matches(message, wanted) <==> Contains(message, wanted)
    decreases |message|
  {
    var pattern := "%" + wanted + "%";
    assert pattern[0] == '%' && pattern[1..] == wanted + "%";
    PlainPrefix(message, wanted);
    if message == "" {
      assert Contains(message, wanted) <==> wanted == "" && StartsAt(message, wanted, 0);
    } else {
      PlainTextIsContained(message[1..], wanted);
      ContainedLater(message, wanted);
    }
  }

  /** A message that a pattern's text matches without containing it, if there is one. */
  function Stand(wanted: string): (message: string)
    ensures |message| <= |wanted|
  {
    if wanted == "" then ""
    else if wanted[0] == '%' then Stand(wanted[1..])
    else if wanted[0] == '_' then "a" + Stand(wanted[1..])
    else if wanted[0] == '\\' then (if |wanted| > 1 then [wanted[1]] + Stand(wanted[2..]) else "%")
    else [wanted[0]] + Stand(wanted[1..])
  }

  lemma {:induction false} StandIsMatched(wanted: string)
    ensures Like(Stand(wanted), wanted + "%")
    decreases |wanted|
  {
    var pattern := wanted + "%";
    if wanted == "" {
      AnyTail("");
      assert pattern == "%";
    } else if wanted == "\\" {
      assert pattern == "\\%" && Stand(wanted) == "%" && Like("", "");
      assert pattern[2..] == "" && "%"[1..] == "";
    } else if wanted[0] == '\\' {
      StandIsMatched(wanted[2..]);
      assert pattern[1] == wanted[1] && pattern[2..] == wanted[2..] + "%" && Stand(wanted)[1..] == Stand(wanted[2..]);
    } else {
      StandIsMatched(wanted[1..]);
      assert pattern[0] == wanted[0] && pattern[1..] == wanted[1..] + "%";
      if wanted[0] != '%' {
        assert Stand(wanted)[1..] == Stand(wanted[1..]);
      }
    }
  }

  lemma {:induction false} StandIsDifferent(wanted: string)
    requires |Stand(wanted)| == |wanted| && StartsAt(Stand(wanted), wanted, 0)
    ensures Plain(wanted)
    decreases |wanted|
  {
    if wanted != "" {
      var c, stand := wanted[0], Stand(wanted);
      assert LowerChar(stand[0]) == LowerChar(c);
      if !Special(c) {
        StartsLater(stand, wanted);
        assert stand[1..] == Stand(wanted[1..]);
        StandIsDifferent(wanted[1..]);
        forall k | 0 <= k < |wanted| ensures !Special(wanted[k]) { assert k > 0 ==> !Special(wanted[1..][k - 1]); }
      }
    }
  }

  /**
   The pattern means what the documentation says, for every message, exactly when the text of the rule has no
   special character. Otherwise some message matches that does not contain the text.
   */
  lemma MatchesMeansContainsIffPlain(wanted: string)
    ensures (forall message :: Matches(message, wanted) <==> Contains(message, wanted)) <==> Plain(wanted)
  {
    if Plain(wanted) {
      forall message ensures Matches(message, wanted) <==> Contains(message, wanted) {
        PlainTextIsContained(message, wanted);
      }
    } else {
      var stand := Stand(wanted);
      StandIsMatched(wanted);
      var pattern := "%" + wanted + "%";
      assert pattern[0] == '%' && pattern[1..] == wanted + "%";
      assert Matches(stand, wanted);
      if Contains(stand, wanted) {
        StandIsDifferent(wanted);
      }
    }
  }
}
