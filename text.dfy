/** The small text helpers of the renderer: `toSentenceCase`, `ensureArray`
    and the stations-remaining text of `setRemainingText`. */
module Text {

  /** What `toSentenceCase` may be handed: a string, or any other JavaScript value. */
  datatype Value = Str(s: string) | NonString

  /** What `ensureArray` may be handed: an array, or a single element. */
  datatype Elements<T> = Many(items: seq<T>) | Single(item: T)

  const MultipleSuffix := " stations remaining"
  const SingleText := "Last station"
  const NoneText := "No more stations"

  predicate IsLowerAscii(c: char) { 'a' <= c <= 'z' }

  predicate IsUpperAscii(c: char) { 'A' <= c <= 'Z' }

  /** `toUpperCase` on one character (ASCII letters only). */
  function Upper(c: char): (u: char)
    ensures !IsLowerAscii(u)
    ensures IsLowerAscii(c) ==> IsUpperAscii(u)
    ensures !IsLowerAscii(c) ==> u == c
  {
    if IsLowerAscii(c) then (c as int - 32) as char else c
  }

  /** `toLowerCase` on one character (ASCII letters only). */
  function Lower(c: char): (l: char)
    ensures !IsUpperAscii(l)
    ensures IsUpperAscii(c) ==> IsLowerAscii(l)
    ensures !IsUpperAscii(c) ==> l == c
  {
    if IsUpperAscii(c) then (c as int + 32) as char else c
  }

  /** `toLowerCase` on a string. */
  function LowerAll(s: string): (r: string)
    decreases |s|
  {
    if s == [] then [] else [Lower(s[0])] + LowerAll(s[1..])
  }

  lemma {:induction false} LowerAllAt(s: string)
    ensures |LowerAll(s)| == |s|
    ensures forall i :: 0 <= i < |s| ==> LowerAll(s)[i] == Lower(s[i])
    decreases |s|
  {
    if s != [] {
      LowerAllAt(s[1..]);
    }
  }

  /** `toSentenceCase`: the first character upper case, the rest lower case;
      the empty string for an empty string or a value that is not a string. */
  function SentenceCase(v: Value): (r: string)
  {
    match v
    case Str(s) => if |s| > 0 then [Upper(s[0])] + LowerAll(s[1..]) else ""
    case NonString => ""
  }

  /** `ensureArray`: an array is passed through, a single element is wrapped. */
  function EnsureArray<T>(e: Elements<T>): (r: seq<T>)
  {
    match e
    case Many(items) => items
    case Single(x) => [x]
  }

  /** The text `setRemainingText` puts on the stations-remaining view;
      `words` stands for the `number-to-words` library's `toWords`. */
  function RemainingText(stationsLeft: int, words: int -> string): (r: string)
  {
    if stationsLeft == 0 then NoneText
    else if stationsLeft == 1 then SingleText
    else SentenceCase(Str(words(stationsLeft))) + MultipleSuffix
  }

  predicate EndsWith(s: string, suffix: string)
  {
    |suffix| <= |s| && s[|s| - |suffix|..] == suffix
  }

  // ---------------------------------------------------------------------------
  // Lemmas

  lemma UpperLower(c: char)
    ensures Upper(Upper(c)) == Upper(c) && Lower(Lower(c)) == Lower(c)
    ensures Lower(Upper(c)) == Lower(c)
  {
  }

  /** What `toSentenceCase` returns: nothing for an empty string or a value
      that is not a string; otherwise a string of the same length whose first
      character is the argument's first character in upper case and whose
      other characters are the argument's in lower case. */
  lemma SentenceCaseShape(v: Value)
    ensures var r := SentenceCase(v);
      && (v.NonString? || v.s == [] <==> r == [])
      && (v.Str? ==> |r| == |v.s|)
      && (v.Str? && r != [] ==> !IsLowerAscii(r[0]) && Lower(r[0]) == Lower(v.s[0]))
      && (v.Str? ==> forall i :: 1 <= i < |r| ==> !IsUpperAscii(r[i]) && Lower(r[i]) == Lower(v.s[i]))
  {
    if v.Str? && v.s != [] {
      LowerAllAt(v.s[1..]);
    }
  }

  /** Applying `toSentenceCase` to its own result changes nothing. */
  lemma SentenceCaseIdempotent(v: Value)
    ensures SentenceCase(Str(SentenceCase(v))) == SentenceCase(v)
  {
    var r := SentenceCase(v);
    var rr := SentenceCase(Str(r));
    SentenceCaseShape(v);
    SentenceCaseShape(Str(r));
    if r != [] {
      assert |rr| == |r|;
      UpperLower(v.s[0]);
      forall i | 0 <= i < |r| ensures rr[i] == r[i] {
        if i > 0 {
          UpperLower(v.s[i]);
        }
      }
    }
  }

  /** Wrapping the result of `ensureArray` again gives it back unchanged. */
  lemma EnsureArrayIdempotent<T>(e: Elements<T>)
    ensures EnsureArray(Many(EnsureArray(e))) == EnsureArray(e)
  {
  }

  /** The three texts of the stations-remaining view: the fixed phrases for
      no and one station, and otherwise the count in words, sentence-cased,
      followed by " stations remaining". */
  lemma RemainingTextCases(n: int, words: int -> string)
    ensures n == 0 ==> RemainingText(n, words) == "No more stations"
    ensures n == 1 ==> RemainingText(n, words) == "Last station"
    ensures EndsWith(RemainingText(n, words), " stations remaining") <==> n != 0 && n != 1
    ensures n != 0 && n != 1 ==>
      RemainingText(n, words)[..|RemainingText(n, words)| - |MultipleSuffix|] == SentenceCase(Str(words(n)))
  {
    var r := RemainingText(n, words);
    if n != 0 && n != 1 {
      var w := SentenceCase(Str(words(n)));
      assert r == w + MultipleSuffix;
      assert r[|r| - |MultipleSuffix|..] == MultipleSuffix;
      assert r[..|r| - |MultipleSuffix|] == w;
    }
  }

  /** With `toWords(3) == "three"` the stations-remaining view reads "Three stations remaining". */
  lemma RemainingTextThree(words: int -> string)
    requires words(3) == "three"
    ensures RemainingText(3, words) == "Three stations remaining"
  {
    SentenceCaseThree();
    assert RemainingText(3, words) == "Three" + MultipleSuffix;
    ThreeStations();
  }

  lemma ThreeStations()
    ensures "Three" + MultipleSuffix == "Three stations remaining"
  {
  }

  lemma SentenceCaseThree()
    ensures SentenceCase(Str("three")) == "Three"
  {
    var l := LowerAll("hree");
    assert |l| == 4 && l[0] == 'h' && l[1] == 'r' && l[2] == 'e' && l[3] == 'e';
    assert l == "hree";
    assert "three"[1..] == "hree";
  }
}
