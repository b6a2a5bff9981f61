/**
 The text whose hash groups events into issues (`fingerprint` in src/api.rs). The hash itself is a
 function of this text, so every equality below is an equality of issues.
 */
module Fingerprinting {
  import opened Wrappers
  import opened Json

  const MAX_FRAMES := 5
  const DEFAULT_COMPONENT := "{{ default }}"

  /** What grouping looks at in an event. */
  datatype Grouped = Grouped(level: string, message: string, fingerprint: Json, exception: Json)

  // ----- the message -----

  /** The Unicode White_Space property. */
  predicate IsSpace(c: char)
  {
    || '\t' <= c <= '\r' || c == ' '
    || c as int in {0x85, 0xA0, 0x1680, 0x2028, 0x2029, 0x202F, 0x205F, 0x3000}
    || 0x2000 <= c as int <= 0x200A
  }

  predicate AllSpace(s: string)
  {
    forall i :: 0 <= i < |s| ==> IsSpace(s[i])
  }

  /** `split_whitespace`: the maximal runs of characters that are not white space. */
  function Words(s: string): (words: seq<string>)
    ensures s != "" && !IsSpace(s[0]) ==> words != []
  {
    if s == "" then []
    else if IsSpace(s[0]) then Words(s[1..])
    else
      AddChar(s[0], |s| == 1 || IsSpace(s[1]), Words(s[1..]))
  }

  /** Puts a character before the words that follow it: as a word of its own, or at the start of the first one. */
  function AddChar(c: char, alone: bool, words: seq<string>): (r: seq<string>)
    requires alone || words != []
    ensures r != []
  {
    if alone then [[c]] + words else [[c] + words[0]] + words[1..]
  }

  function Join(parts: seq<string>, separator: string): string
  {
    if parts == [] then ""
    else if |parts| == 1 then parts[0]
    else parts[0] + separator + Join(parts[1..], separator)
  }

  function Normalized(message: string): string
  {
    AsciiLower(Join(Words(message), " "))
  }

  // ----- the stack frames -----

  function FirstValue(exception: Json): Option<Json>
  {
    var values := Get(exception, "values");
    if values.Some? && values.value.Arr? && values.value.items != [] then Some(values.value.items[0]) else None
  }

  function GetIn(j: Option<Json>, key: string): Option<Json>
  {
    if j.Some? then Get(j.value, key) else None
  }

  function ExceptionType(exception: Json): string
  {
    OrDefault(OrElse(AsStr(Get(exception, "type")), AsStr(GetIn(FirstValue(exception), "type"))), "")
  }

  function Frames(exception: Json): seq<Json>
  {
    var stacktrace := OrElse(GetIn(FirstValue(exception), "stacktrace"), Get(exception, "stacktrace"));
    var frames := GetIn(stacktrace, "frames");
    if frames.Some? && frames.value.Arr? then frames.value.items else []
  }

  predicate Eligible(frame: Json)
  {
    Get(frame, "in_app") != Some(Bool(false))
  }

  function FrameText(frame: Json): string
  {
    OrDefault(AsStr(Get(frame, "module")), "") + ":" + OrDefault(AsStr(Get(frame, "function")), "")
    + ":" + OrDefault(AsStr(Get(frame, "filename")), "")
  }

  /** The frames from the last to the first, without those outside the application, at most `n` of them. */
  function LastFrames(frames: seq<Json>, n: nat): seq<string>
  {
    if n == 0 || frames == [] then []
    else
      var last, before := frames[|frames| - 1], frames[..|frames| - 1];
      if Eligible(last) then [FrameText(last)] + LastFrames(before, n - 1) else LastFrames(before, n)
  }

  // ----- the text that is hashed -----

  function DefaultComponent(e: Grouped): string
  {
    var frames := LastFrames(Frames(e.exception), MAX_FRAMES);
    var detail := if frames == [] then Normalized(e.message) else Join(frames, "|");
    e.level + "|" + ExceptionType(e.exception) + "|" + detail
  }

  function Strings(items: seq<Json>): seq<string>
  {
    if items == [] then []
    else (if items[0].Str? then [items[0].s] else []) + Strings(items[1..])
  }

  function Custom(fingerprint: Json): seq<string>
  {
    match fingerprint
    case Arr(items) => Strings(items)
    case Str(s) => if s != "" then [s] else []
    case _ => []
  }

  function Substituted(parts: seq<string>, default: string): seq<string>
  {
    seq(|parts|, i requires 0 <= i < |parts| => if parts[i] == DEFAULT_COMPONENT then default else parts[i])
  }

  function Fingerprint(e: Grouped): string
  {
    var custom := Custom(e.fingerprint);
    if custom == [] then DefaultComponent(e) else Join(Substituted(custom, DefaultComponent(e)), "|")
  }

  // ----- stability under changes of the message -----

  lemma {:induction false} SpaceBeforeWords(w: string, v: string)
    requires AllSpace(w)
    ensures Words(w + v) == Words(v)
  {
    if w == "" {
      assert w + v == v;
    } else {
      assert (w + v)[1..] == w[1..] + v;
      SpaceBeforeWords(w[1..], v);
    }
  }

  /** White space separates: what stands before it and after it is split independently. */
  lemma {:induction false} WordsSplitAtSpace(u: string, w: string, v: string)
    requires w != "" && AllSpace(w)
    ensures Words(u + w + v) == Words(u) + Words(v)
  {
    var s := u + w + v;
    if u == "" {
      assert s == w + v;
      SpaceBeforeWords(w, v);
    } else {
      WordsSplitAtSpace(u[1..], w, v);
      assert s[1..] == u[1..] + w + v;
      assert s[0] == u[0] && s[1] == if |u| == 1 then w[0] else u[1];
      if !IsSpace(u[0]) {
        AddCharAppend(u[0], |u| == 1 || IsSpace(u[1]), Words(u[1..]), Words(v));
      }
    }
  }

  lemma AddCharAppend(c: char, alone: bool, words: seq<string>, more: seq<string>)
    requires alone || words != []
    ensures AddChar(c, alone, words + more) == AddChar(c, alone, words) + more
  {
  }

  /** The length and kind of white space between words, and any at the ends, never matter. */
  lemma RespacingKeepsWords(u: string, v: string, w: string, w': string)
    requires AllSpace(w) && AllSpace(w')
    ensures w != "" && w' != "" ==> Words(u + w + v) == Words(u + w' + v)
    ensures Words(w + u + w') == Words(u)
  {
    if w != "" && w' != "" {
      WordsSplitAtSpace(u, w, v);
      WordsSplitAtSpace(u, w', v);
    }
    assert w + u + w' == w + (u + w');
    SpaceBeforeWords(w, u + w');
    if w' == "" {
      assert u + w' == u;
    } else {
      assert u + w' + "" == u + w';
      WordsSplitAtSpace(u, w', "");
      assert Words(u) + Words("") == Words(u);
    }
  }

  function LowerAll(parts: seq<string>): seq<string>
  {
    seq(|parts|, i requires 0 <= i < |parts| => AsciiLower(parts[i]))
  }

  lemma LowerKeepsSpace(c: char)
    ensures IsSpace(LowerChar(c)) <==> IsSpace(c)
  {
  }

  lemma LowerAddChar(c: char, alone: bool, words: seq<string>)
    requires alone || words != []
    ensures LowerAll(AddChar(c, alone, words)) == AddChar(LowerChar(c), alone, LowerAll(words))
  {
    assert AsciiLower([c]) == [LowerChar(c)];
    if !alone {
      assert AsciiLower([c] + words[0]) == [LowerChar(c)] + AsciiLower(words[0]);
    }
  }

  lemma {:induction false} LowerWords(s: string)
    ensures Words(AsciiLower(s)) == LowerAll(Words(s))
  {
    if s != "" {
      LowerWords(s[1..]);
      assert AsciiLower(s)[1..] == AsciiLower(s[1..]);
      LowerKeepsSpace(s[0]);
      if !IsSpace(s[0]) {
        if |s| > 1 {
          LowerKeepsSpace(s[1]);
        }
        LowerAddChar(s[0], |s| == 1 || IsSpace(s[1]), Words(s[1..]));
      }
    }
  }

  lemma {:induction false} LowerJoin(parts: seq<string>, separator: string)
    ensures AsciiLower(Join(parts, separator)) == Join(LowerAll(parts), AsciiLower(separator))
  {
    if |parts| > 1 {
      LowerJoin(parts[1..], separator);
      assert LowerAll(parts)[1..] == LowerAll(parts[1..]);
      var rest := Join(parts[1..], separator);
      assert AsciiLower(parts[0] + separator + rest) == AsciiLower(parts[0]) + AsciiLower(separator) + AsciiLower(rest);
    }
  }

  /** No part of a list has a separator in it. */
  predicate Free(parts: seq<string>, separator: char)
  {
    forall i :: 0 <= i < |parts| ==> separator !in parts[i]
  }

  lemma {:induction false} WordsAreFree(s: string)
    ensures Free(Words(s), ' ') && forall i :: 0 <= i < |Words(s)| ==> Words(s)[i] != ""
  {
    if s != "" {
      WordsAreFree(s[1..]);
    }
  }

  lemma LowerStaysFree(words: seq<string>)
    requires Free(words, ' ') && forall i :: 0 <= i < |words| ==> words[i] != ""
    ensures Free(LowerAll(words), ' ') && forall i :: 0 <= i < |words| ==> LowerAll(words)[i] != ""
  {
    forall i | 0 <= i < |words| ensures ' ' !in LowerAll(words)[i] {
      assert forall k :: 0 <= k < |words[i]| ==> words[i][k] in words[i];
    }
  }

  lemma JoinOfNothing(parts: seq<string>, separator: string)
    requires forall i :: 0 <= i < |parts| ==> parts[i] != ""
    ensures Join(parts, separator) == "" <==> parts == []
  {
  }

  /** Two messages are normalized alike exactly when they have the same words but for letter case. */
  lemma NormalizedAlikeIffSameWords(m: string, m': string)
    ensures Normalized(m) == Normalized(m') <==> LowerAll(Words(m)) == LowerAll(Words(m'))
  {
    LowerJoin(Words(m), " ");
    LowerJoin(Words(m'), " ");
    assert AsciiLower(" ") == [' '];
    WordsAreFree(m);
    WordsAreFree(m');
    LowerStaysFree(Words(m));
    LowerStaysFree(Words(m'));
    var a, b := LowerAll(Words(m)), LowerAll(Words(m'));
    JoinOfNothing(a, [' ']);
    JoinOfNothing(b, [' ']);
    if Normalized(m) == Normalized(m') && a != [] && b != [] {
      JoinIsInjective(a, b, ' ');
    }
  }

  /** The joined parts determine the list they came from as long as none of them holds the separator. */
  lemma {:induction false} JoinIsInjective(a: seq<string>, b: seq<string>, separator: char)
    requires a != [] && b != [] && Free(a, separator) && Free(b, separator)
    requires Join(a, [separator]) == Join(b, [separator])
    ensures a == b
  {
    var s := Join(a, [separator]);
    FirstSeparator(a, separator);
    FirstSeparator(b, separator);
    SameFirst(s, a[0], b[0], separator);
    if |a| > 1 {
      assert |b| > 1;
      JoinIsInjective(a[1..], b[1..], separator);
      assert a == [a[0]] + a[1..] && b == [b[0]] + b[1..];
    }
  }

  lemma FirstSeparator(a: seq<string>, separator: char)
    requires a != []
    ensures var s := Join(a, [separator]);
            && a[0] <= s
            && (|a| == 1 ==> |s| == |a[0]|)
            && (|a| > 1 ==> |s| > |a[0]| && s[|a[0]|] == separator && s[|a[0]| + 1..] == Join(a[1..], [separator]))
  {
  }

  /** A text starts with only one part that has no separator in it and ends at a separator or with the text. */
  lemma SameFirst(s: string, a: string, b: string, separator: char)
    requires a <= s && b <= s && separator !in a && separator !in b
    requires |a| < |s| ==> s[|a|] == separator
    requires |b| < |s| ==> s[|b|] == separator
    ensures a == b
  {
    assert forall i :: 0 <= i < |a| ==> s[i] == a[i] && a[i] in a;
    assert forall i :: 0 <= i < |b| ==> s[i] == b[i] && b[i] in b;
  }

  // ----- stability under changes of the stack -----

  lemma LastFrameSplits(a: seq<Json>, b: seq<Json>)
    requires b != []
    ensures (a + b)[|a + b| - 1] == b[|b| - 1] && (a + b)[..|a + b| - 1] == a + b[..|b| - 1]
  {
  }

  /** A frame outside the application can appear or vanish anywhere. */
  lemma {:induction false} ForeignFrameIsIgnored(a: seq<Json>, x: Json, b: seq<Json>, n: nat)
    requires !Eligible(x)
    ensures LastFrames(a + [x] + b, n) == LastFrames(a + b, n)
    decreases |b|
  {
    if b == [] {
      assert a + [x] + b == a + [x] && a + b == a;
      assert (a + [x])[..|a|] == a;
    } else if n > 0 {
      LastFrameSplits(a + [x], b);
      LastFrameSplits(a, b);
      var m := if Eligible(b[|b| - 1]) then n - 1 else n;
      ForeignFrameIsIgnored(a, x, b[..|b| - 1], m);
    }
  }

  function CountEligible(frames: seq<Json>): nat
  {
    if frames == [] then 0
    else (if Eligible(frames[|frames| - 1]) then 1 else 0) + CountEligible(frames[..|frames| - 1])
  }

  /** Nothing above the last `n` eligible frames matters. */
  lemma {:induction false} EarlierFramesAreIgnored(a: seq<Json>, a': seq<Json>, b: seq<Json>, n: nat)
    requires CountEligible(b) >= n
    ensures LastFrames(a + b, n) == LastFrames(a' + b, n)
    decreases |b|
  {
    if n > 0 {
      LastFrameSplits(a, b);
      LastFrameSplits(a', b);
      var m := if Eligible(b[|b| - 1]) then n - 1 else n;
      EarlierFramesAreIgnored(a, a', b[..|b| - 1], m);
    }
  }

  lemma {:induction false} EligibleFrameIsSeen(frames: seq<Json>, n: nat)
    requires n > 0
    ensures LastFrames(frames, n) == [] <==> CountEligible(frames) == 0
  {
    if frames != [] && !Eligible(frames[|frames| - 1]) {
      EligibleFrameIsSeen(frames[..|frames| - 1], n);
    }
  }

  // ----- grouping of events -----

  /**
   Messages with the same words but for letter case never tell events apart; any others do where the message counts.
   */
  lemma MessageFormDoesNotRegroup(e: Grouped, message: string)
    ensures LowerAll(Words(message)) == LowerAll(Words(e.message)) ==>
              Fingerprint(e.(message := message)) == Fingerprint(e)
    ensures Custom(e.fingerprint) == [] && CountEligible(Frames(e.exception)) == 0 ==>
              (Fingerprint(e.(message := message)) == Fingerprint(e) <==>
               LowerAll(Words(message)) == LowerAll(Words(e.message)))
  {
    NormalizedAlikeIffSameWords(message, e.message);
    EligibleFrameIsSeen(Frames(e.exception), MAX_FRAMES);
    var prefix := e.level + "|" + ExceptionType(e.exception) + "|";
    SamePrefix(prefix, Normalized(message), Normalized(e.message));
  }

  lemma SamePrefix(prefix: string, a: string, b: string)
    ensures prefix + a == prefix + b <==> a == b
  {
    assert (prefix + a)[|prefix|..] == a && (prefix + b)[|prefix|..] == b;
  }

  /** In particular white space between words and at the ends, and the case of letters. */
  lemma SpacingAndCaseDoNotRegroup(e: Grouped, u: string, v: string, w: string, w': string, recased: string)
    requires AllSpace(w) && AllSpace(w') && AsciiLower(recased) == AsciiLower(u)
    ensures w != "" && w' != "" ==> Fingerprint(e.(message := u + w + v)) == Fingerprint(e.(message := u + w' + v))
    ensures Fingerprint(e.(message := w + u + w')) == Fingerprint(e.(message := u))
    ensures Fingerprint(e.(message := recased)) == Fingerprint(e.(message := u))
  {
    RespacingKeepsWords(u, v, w, w');
    LowerWords(recased);
    LowerWords(u);
    MessageFormDoesNotRegroup(e.(message := u + w' + v), u + w + v);
    MessageFormDoesNotRegroup(e.(message := u), w + u + w');
    MessageFormDoesNotRegroup(e.(message := u), recased);
  }

  /** Once a frame of the application is known, the message does not matter at all. */
  lemma MessageIsIgnoredWithFrames(e: Grouped, message: string)
    requires CountEligible(Frames(e.exception)) > 0
    ensures Fingerprint(e.(message := message)) == Fingerprint(e)
  {
    EligibleFrameIsSeen(Frames(e.exception), MAX_FRAMES);
  }

  lemma StackChangesKeepLastFrames(a: seq<Json>, a': seq<Json>, x: Json, b: seq<Json>, c: seq<Json>, n: nat)
    requires !Eligible(x) && (a == a' || CountEligible(b + c) >= n)
    ensures LastFrames(a + (b + [x] + c), n) == LastFrames(a' + (b + c), n)
  {
    assert a + (b + [x] + c) == a + b + [x] + c && a + b + c == a + (b + c);
    ForeignFrameIsIgnored(a + b, x, c, n);
    if a != a' {
      EarlierFramesAreIgnored(a, a', b + c, n);
    }
  }

  /** What the exception contributes is its type and its last frames. */
  lemma SameLastFrames(e: Grouped, exception: Json)
    requires ExceptionType(exception) == ExceptionType(e.exception)
    requires LastFrames(Frames(exception), MAX_FRAMES) == LastFrames(Frames(e.exception), MAX_FRAMES)
    ensures Fingerprint(e.(exception := exception)) == Fingerprint(e)
  {
    assert DefaultComponent(e.(exception := exception)) == DefaultComponent(e);
  }

  /**
   Two events group together when their stacks end in the same five eligible frames, whatever stands
   above those and whatever frame outside the application stands among them.
   */
  lemma StackChangesDoNotRegroup(e: Grouped, exception: Json, a: seq<Json>, a': seq<Json>, x: Json, b: seq<Json>,
                                 c: seq<Json>)
    requires ExceptionType(exception) == ExceptionType(e.exception)
    requires Frames(e.exception) == a + (b + [x] + c) && Frames(exception) == a' + (b + c)
    requires !Eligible(x)
    requires a == a' || CountEligible(b + c) >= MAX_FRAMES
    ensures Fingerprint(e.(exception := exception)) == Fingerprint(e)
  {
    StackChangesKeepLastFrames(a, a', x, b, c, MAX_FRAMES);
    SameLastFrames(e, exception);
  }

  lemma {:induction false} StringsAppend(a: seq<Json>, b: seq<Json>)
    ensures Strings(a + b) == Strings(a) + Strings(b)
  {
    if a == [] {
      assert a + b == b;
    } else {
      assert (a + b)[1..] == a[1..] + b;
      StringsAppend(a[1..], b);
    }
  }

  /** Asking for the default component alone, as text or as a list, is the same as asking for nothing. */
  lemma DefaultComponentIsNoFingerprint(e: Grouped, before: seq<Json>, after: seq<Json>)
    requires Strings(before) == [] && Strings(after) == []
    ensures var plain := Fingerprint(e.(fingerprint := Null));
            && Fingerprint(e.(fingerprint := Str(DEFAULT_COMPONENT))) == plain
            && Fingerprint(e.(fingerprint := Str(""))) == plain
            && Fingerprint(e.(fingerprint := Arr(before))) == plain
            && Fingerprint(e.(fingerprint := Arr(before + [Str(DEFAULT_COMPONENT)] + after))) == plain
  {
    StringsAppend(before + [Str(DEFAULT_COMPONENT)], after);
    StringsAppend(before, [Str(DEFAULT_COMPONENT)]);
    var asked := [Str(DEFAULT_COMPONENT)];
    assert asked[1..] == [];
    assert Strings(asked) == [DEFAULT_COMPONENT];
    assert [] + [DEFAULT_COMPONENT] + [] == [DEFAULT_COMPONENT];
  }

  // ----- custom fingerprints -----

  /** A component cut at its bars. */
  function Atoms(component: string): (atoms: seq<string>)
    ensures atoms != []
  {
    if component == "" then [""]
    else
      var rest := Atoms(component[1..]);
      if component[0] == '|' then [""] + rest else [[component[0]] + rest[0]] + rest[1..]
  }

  function AllAtoms(parts: seq<string>): (atoms: seq<string>)
    ensures parts != [] ==> atoms != []
  {
    if parts == [] then [] else Atoms(parts[0]) + AllAtoms(parts[1..])
  }

  lemma {:induction false} AtomsAreFree(component: string)
    ensures Free(Atoms(component), '|') && Join(Atoms(component), ['|']) == component
  {
    if component != "" {
      AtomsAreFree(component[1..]);
      var rest := Atoms(component[1..]);
      if component[0] == '|' {
        assert ([""] + rest)[1..] == rest;
      } else {
        assert ([[component[0]] + rest[0]] + rest[1..])[1..] == rest[1..];
        assert component == [component[0]] + component[1..];
      }
    }
  }

  lemma {:induction false} JoinAppend(a: seq<string>, b: seq<string>, separator: string)
    requires a != [] && b != []
    ensures Join(a + b, separator) == Join(a, separator) + separator + Join(b, separator)
  {
    if |a| == 1 {
      assert (a + b)[1..] == b;
    } else {
      JoinAppend(a[1..], b, separator);
      assert (a + b)[1..] == a[1..] + b;
    }
  }

  lemma {:induction false} AllAtomsAreFree(parts: seq<string>)
    requires parts != []
    ensures Free(AllAtoms(parts), '|') && Join(AllAtoms(parts), ['|']) == Join(parts, ['|'])
  {
    AtomsAreFree(parts[0]);
    if |parts| == 1 {
      assert AllAtoms(parts[1..]) == [] && AllAtoms(parts) == Atoms(parts[0]);
    } else {
      AllAtomsAreFree(parts[1..]);
      JoinAppend(Atoms(parts[0]), AllAtoms(parts[1..]), ['|']);
    }
  }

  /** Two lists of components are joined to the same text exactly when they are the same once cut at all bars. */
  lemma JoinedAlikeIffSameAtoms(a: seq<string>, b: seq<string>)
    requires a != [] && b != []
    ensures Join(a, ['|']) == Join(b, ['|']) <==> AllAtoms(a) == AllAtoms(b)
  {
    AllAtomsAreFree(a);
    AllAtomsAreFree(b);
    if Join(a, ['|']) == Join(b, ['|']) {
      JoinIsInjective(AllAtoms(a), AllAtoms(b), '|');
    }
  }

  /** The components that the text of an event is joined from. */
  function Components(e: Grouped): (parts: seq<string>)
    ensures parts != []
  {
    var custom := Custom(e.fingerprint);
    if custom == [] then [DefaultComponent(e)] else Substituted(custom, DefaultComponent(e))
  }

  /** Two events group together exactly when their components are the same once cut at all bars. */
  lemma FingerprintsMeetIffSameAtoms(e: Grouped, other: Grouped)
    ensures Fingerprint(e) == Fingerprint(other) <==> AllAtoms(Components(e)) == AllAtoms(Components(other))
  {
    assert "|" == ['|'];
    JoinedAlikeIffSameAtoms(Components(e), Components(other));
  }

  lemma NothingSubstituted(parts: seq<string>, default: string)
    requires DEFAULT_COMPONENT !in parts
    ensures Substituted(parts, default) == parts
  {
    assert forall i :: 0 <= i < |parts| ==> parts[i] in parts;
  }

  /**
   Custom fingerprints without the default component decide alone: whatever else the events hold, they group together
   exactly when their components are the same once cut at all bars. So components with bars can meet in one group though
   they differ, and those without cannot.
   */
  lemma CustomFingerprintsMeetIffSameAtoms(e: Grouped, other: Grouped)
    requires Custom(e.fingerprint) != [] && Custom(other.fingerprint) != []
    requires DEFAULT_COMPONENT !in Custom(e.fingerprint) && DEFAULT_COMPONENT !in Custom(other.fingerprint)
    ensures Fingerprint(e) == Fingerprint(other) <==>
              AllAtoms(Custom(e.fingerprint)) == AllAtoms(Custom(other.fingerprint))
  {
    NothingSubstituted(Custom(e.fingerprint), DefaultComponent(e));
    NothingSubstituted(Custom(other.fingerprint), DefaultComponent(other));
    FingerprintsMeetIffSameAtoms(e, other);
  }

  function CountDefaults(parts: seq<string>): (n: nat)
    ensures n > 0 <==> DEFAULT_COMPONENT in parts
  {
    if parts == [] then 0 else (if parts[0] == DEFAULT_COMPONENT then 1 else 0) + CountDefaults(parts[1..])
  }

  lemma SubstitutedRest(parts: seq<string>, default: string)
    requires parts != []
    ensures Substituted(parts, default) ==
            [if parts[0] == DEFAULT_COMPONENT then default else parts[0]] + Substituted(parts[1..], default)
  {
  }

  lemma JoinLength(first: string, rest: seq<string>)
    ensures |Join([first] + rest, "|")| == |first| + if rest == [] then 0 else 1 + |Join(rest, "|")|
  {
    assert ([first] + rest)[1..] == rest;
  }

  lemma OneMoreDefault(n: nat, k: int)
    ensures (1 + n) * k == k + n * k
  {
  }

  /** Every default component in a list adds its length to the text. */
  lemma {:induction false} SubstitutedLength(parts: seq<string>, d: string, d': string)
    ensures |Join(Substituted(parts, d), "|")| - |Join(Substituted(parts, d'), "|")| ==
            CountDefaults(parts) * (|d| - |d'|)
  {
    if parts != [] {
      var rest := parts[1..];
      SubstitutedRest(parts, d);
      SubstitutedRest(parts, d');
      SubstitutedLength(rest, d, d');
      OneMoreDefault(CountDefaults(rest), |d| - |d'|);
      JoinLength(if parts[0] == DEFAULT_COMPONENT then d else parts[0], Substituted(rest, d));
      JoinLength(if parts[0] == DEFAULT_COMPONENT then d' else parts[0], Substituted(rest, d'));
      if rest == [] {
        assert CountDefaults(rest) == 0;
      }
    }
  }

  lemma SameLength(n: nat, a: nat, b: nat)
    requires n > 0 && n * (a - b) == 0
    ensures a == b
  {
  }

  lemma {:induction false} SubstitutedTells(parts: seq<string>, d: string, d': string)
    requires DEFAULT_COMPONENT in parts && |d| == |d'|
    requires Join(Substituted(parts, d), "|") == Join(Substituted(parts, d'), "|")
    ensures d == d'
  {
    SubstitutedRest(parts, d);
    SubstitutedRest(parts, d');
    var a, b := Join(Substituted(parts, d), "|"), Join(Substituted(parts, d'), "|");
    if parts[0] == DEFAULT_COMPONENT {
      assert d == a[..|d|] && d' == b[..|d|];
    } else {
      var n := |parts[0]| + 1;
      assert a[n..] == Join(Substituted(parts[1..], d), "|");
      assert b[n..] == Join(Substituted(parts[1..], d'), "|");
      SubstitutedTells(parts[1..], d, d');
    }
  }

  /**
   Events that extend the default component in the same way group together exactly when they would without the
   extension.
   */
  lemma SameExtensionKeepsGroups(e: Grouped, other: Grouped)
    requires Custom(e.fingerprint) == Custom(other.fingerprint) && DEFAULT_COMPONENT in Custom(e.fingerprint)
    ensures Fingerprint(e) == Fingerprint(other) <==>
              Fingerprint(e.(fingerprint := Null)) == Fingerprint(other.(fingerprint := Null))
  {
    var parts, d, d' := Custom(e.fingerprint), DefaultComponent(e), DefaultComponent(other);
    assert DefaultComponent(e.(fingerprint := Null)) == d && DefaultComponent(other.(fingerprint := Null)) == d';
    if Fingerprint(e) == Fingerprint(other) {
      SubstitutedLength(parts, d, d');
      SameLength(CountDefaults(parts), |d|, |d'|);
      SubstitutedTells(parts, d, d');
    }
  }

  lemma {:induction false} FreeAtoms(parts: seq<string>)
    requires Free(parts, '|')
    ensures AllAtoms(parts) == parts
  {
    if parts != [] {
      NoBarOneAtom(parts[0]);
      FreeAtoms(parts[1..]);
    }
  }

  lemma {:induction false} NoBarOneAtom(component: string)
    requires '|' !in component
    ensures Atoms(component) == [component]
  {
    if component != "" {
      assert component[0] in component;
      NoBarOneAtom(component[1..]);
      assert component == [component[0]] + component[1..];
    }
  }

  /** Without bars, the list of components itself decides. */
  lemma PlainFingerprintsMeetIffEqual(e: Grouped, other: Grouped)
    requires Custom(e.fingerprint) != [] && Custom(other.fingerprint) != []
    requires DEFAULT_COMPONENT !in Custom(e.fingerprint) && DEFAULT_COMPONENT !in Custom(other.fingerprint)
    requires Free(Custom(e.fingerprint), '|') && Free(Custom(other.fingerprint), '|')
    ensures Fingerprint(e) == Fingerprint(other) <==> Custom(e.fingerprint) == Custom(other.fingerprint)
  {
    CustomFingerprintsMeetIffSameAtoms(e, other);
    FreeAtoms(Custom(e.fingerprint));
    FreeAtoms(Custom(other.fingerprint));
  }
}
