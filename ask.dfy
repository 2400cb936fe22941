/** The rule that decides whether the user's answer to a permission
    question grants it: the answer, lower-cased and trimmed, must be "yes"
    or "y". Only ASCII letters are lower-cased and only ASCII whitespace is
    trimmed. */
module Ask {

  /** The ASCII characters `trim` removes: tab, line feed, vertical tab,
      form feed, carriage return and space. */
  predicate IsWhitespace(c: char) {
    c == ' ' || '\t' <= c <= '\r'
  }

  /** `toLowerCase` on one ASCII character. */
  function LowerChar(c: char): (r: char)
    ensures IsWhitespace(r) <==> IsWhitespace(c)
    ensures 'A' <= c <= 'Z' ==> r as int == c as int + 32
    ensures !('A' <= c <= 'Z') ==> r == c
  {
    if 'A' <= c <= 'Z' then (c as int + 32) as char else c
  }

  /** `toLowerCase` on a string. */
  function Lower(s: string): (r: string)
    ensures |r| == |s|
    ensures forall i :: 0 <= i < |s| ==> r[i] == LowerChar(s[i])
  {
    seq(|s|, i requires 0 <= i < |s| => LowerChar(s[i]))
  }

  /** How many whitespace characters `s` starts with. */
  function LeadingWhitespace(s: string): (n: nat)
    ensures n <= |s|
    ensures forall k :: 0 <= k < n ==> IsWhitespace(s[k])
    ensures n == |s| || !IsWhitespace(s[n])
  {
    if s == [] || !IsWhitespace(s[0]) then 0 else 1 + LeadingWhitespace(s[1..])
  }

  /** How many whitespace characters `s` ends with. */
  function TrailingWhitespace(s: string): (n: nat)
    ensures n <= |s|
    ensures forall k :: |s| - n <= k < |s| ==> IsWhitespace(s[k])
    ensures n == |s| || !IsWhitespace(s[|s| - n - 1])
  {
    if s == [] || !IsWhitespace(s[|s| - 1]) then 0 else 1 + TrailingWhitespace(s[..|s| - 1])
  }

  /** `s` without its leading whitespace. */
  function TrimStart(s: string): (r: string)
    ensures |r| <= |s| && r == s[|s| - |r|..]
    ensures forall i :: 0 <= i < |s| - |r| ==> IsWhitespace(s[i])
    ensures r == [] || !IsWhitespace(r[0])
  {
    s[LeadingWhitespace(s)..]
  }

  /** `s` without its trailing whitespace. */
  function TrimEnd(s: string): (r: string)
    ensures |r| <= |s| && r == s[..|r|]
    ensures forall i :: |r| <= i < |s| ==> IsWhitespace(s[i])
    ensures r == [] || !IsWhitespace(r[|r| - 1])
  {
    s[..|s| - TrailingWhitespace(s)]
  }

  /** `trim`: without leading or trailing whitespace. */
  function Trim(s: string): string {
    TrimEnd(TrimStart(s))
  }

  /** The answer as it is compared: lower-cased, then trimmed. */
  function Normalize(answer: string): string {
    Trim(Lower(answer))
  }

  /** The answer grants permission. */
  predicate Accepts(answer: string) {
    Normalize(answer) == "yes" || Normalize(answer) == "y"
  }

  /** `s[i..j]` is `s` with whitespace alone cut off both ends. */
  predicate Core(s: string, i: int, j: int) {
    && 0 <= i <= j <= |s|
    && (forall k :: 0 <= k < i ==> IsWhitespace(s[k]))
    && (forall k :: j <= k < |s| ==> IsWhitespace(s[k]))
  }

  /** Leading whitespace up to the first other character is what
      `TrimStart` removes. */
  lemma TrimStartAt(s: string, i: int)
    requires 0 <= i < |s| && !IsWhitespace(s[i])
    requires forall k :: 0 <= k < i ==> IsWhitespace(s[k])
    ensures TrimStart(s) == s[i..]
  {
    assert LeadingWhitespace(s) == i;
  }

  /** Trailing whitespace after the last other character is what `TrimEnd`
      removes. */
  lemma TrimEndAt(s: string, j: int)
    requires 0 < j <= |s| && !IsWhitespace(s[j - 1])
    requires forall k :: j <= k < |s| ==> IsWhitespace(s[k])
    ensures TrimEnd(s) == s[..j]
  {
    assert TrailingWhitespace(s) == |s| - j;
  }

  /** A string of whitespace alone trims to the empty string. */
  lemma {:induction false} AllWhitespaceTrims(s: string)
    requires forall k :: 0 <= k < |s| ==> IsWhitespace(s[k])
    ensures TrimStart(s) == [] && Trim(s) == []
  {
    if s != [] {
      AllWhitespaceTrims(s[1..]);
    }
  }

  /** Trimming keeps the one middle part that neither starts nor ends with
      whitespace. */
  lemma TrimIsCore(s: string, i: int, j: int)
    requires Core(s, i, j) && i < j
    requires !IsWhitespace(s[i]) && !IsWhitespace(s[j - 1])
    ensures Trim(s) == s[i..j]
  {
    TrimStartAt(s, i);
    TrimEndAt(s[i..], j - i);
    assert s[i..][..j - i] == s[i..j];
  }

  /** Where the trimmed part of `s` lies: a core whose ends are not
      whitespace, or nothing when `s` is whitespace alone. */
  lemma TrimBounds(s: string) returns (i: int, j: int)
    ensures Core(s, i, j) && Trim(s) == s[i..j]
    ensures i < j ==> !IsWhitespace(s[i]) && !IsWhitespace(s[j - 1])
    ensures i == j ==> forall k :: 0 <= k < |s| ==> IsWhitespace(s[k])
  {
    var a := TrimStart(s);
    var t := TrimEnd(a);
    i := |s| - |a|;
    j := i + |t|;
    assert a == s[i..];
    assert t == s[i..j];
    assert forall k :: i <= k < |s| ==> s[k] == a[k - i];
    if i < j {
      assert s[i] == a[0];
      assert s[j - 1] == t[|t| - 1];
    }
  }

  /** Lower-casing a part of `s` is taking that part of `Lower(s)`. */
  lemma LowerSlice(s: string, i: int, j: int)
    requires 0 <= i <= j <= |s|
    ensures Lower(s)[i..j] == Lower(s[i..j])
  {
    var a, b := Lower(s)[i..j], Lower(s[i..j]);
    assert |a| == |b|;
    forall k | 0 <= k < |a| ensures a[k] == b[k] {
      assert a[k] == LowerChar(s[i + k]);
    }
  }

  /** Lower-casing keeps the whitespace at the ends, so lower-casing and
      trimming commute. */
  lemma LowerTrimCommute(s: string)
    ensures Trim(Lower(s)) == Lower(Trim(s))
  {
    var i, j := TrimBounds(s);
    var low := Lower(s);
    assert Core(low, i, j);
    if i < j {
      LowerSlice(s, i, j);
      TrimIsCore(low, i, j);
    } else {
      AllWhitespaceTrims(low);
    }
  }

  /** Normalizing twice is normalizing once. */
  lemma NormalizeIdempotent(answer: string)
    ensures Normalize(Normalize(answer)) == Normalize(answer)
  {
    var n := Normalize(answer);
    assert Lower(n) == n by {
      LowerTrimCommute(answer);
      LowerIdempotent(Trim(answer));
    }
    TrimIdempotent(Lower(answer));
  }

  /** Lower-casing twice is lower-casing once. */
  lemma LowerIdempotent(s: string)
    ensures Lower(Lower(s)) == Lower(s)
  {
  }

  /** Trimming twice is trimming once. */
  lemma TrimIdempotent(s: string)
    ensures Trim(Trim(s)) == Trim(s)
  {
    var t := Trim(s);
    if t != [] {
      assert Core(t, 0, |t|);
      TrimIsCore(t, 0, |t|);
    }
  }

  /** Trimming or lower-casing the answer first does not change the
      decision. */
  lemma AcceptsInvariant(answer: string)
    ensures Accepts(Trim(answer)) == Accepts(answer)
    ensures Accepts(Lower(answer)) == Accepts(answer)
  {
    LowerTrimCommute(answer);
    LowerTrimCommute(Trim(answer));
    TrimIdempotent(Lower(answer));
    LowerIdempotent(answer);
  }

  /** An accepted answer is "yes" or "y", in some mix of cases, with
      whitespace alone around it. */
  lemma AcceptedCore(answer: string) returns (i: int, j: int)
    requires Accepts(answer)
    ensures Core(answer, i, j)
    ensures Lower(answer[i..j]) == "yes" || Lower(answer[i..j]) == "y"
  {
    var low := Lower(answer);
    i, j := TrimBounds(low);
    LowerSlice(answer, i, j);
  }

  /** "yes" or "y", in any mix of cases, with whitespace alone around it is
      an accepted answer. */
  lemma CoreAccepted(answer: string, i: int, j: int)
    requires Core(answer, i, j)
    requires Lower(answer[i..j]) == "yes" || Lower(answer[i..j]) == "y"
    ensures Accepts(answer)
  {
    var low := Lower(answer);
    var m := Lower(answer[i..j]);
    LowerSlice(answer, i, j);
    assert low[i] == m[0] && low[j - 1] == m[|m| - 1];
    TrimIsCore(low, i, j);
  }

  /** An answer is accepted exactly when, apart from whitespace at both
      ends, it is "yes" or "y" in any mix of cases. */
  lemma AcceptsCharacterized(answer: string)
    ensures Accepts(answer) <==>
      exists i, j :: Core(answer, i, j) && (Lower(answer[i..j]) == "yes" || Lower(answer[i..j]) == "y")
  {
    if Accepts(answer) {
      var i, j := AcceptedCore(answer);
    }
    if exists i, j :: Core(answer, i, j) && (Lower(answer[i..j]) == "yes" || Lower(answer[i..j]) == "y") {
      var i, j :| Core(answer, i, j) && (Lower(answer[i..j]) == "yes" || Lower(answer[i..j]) == "y");
      CoreAccepted(answer, i, j);
    }
  }

  /** Case does not matter: "YES". */
  lemma AcceptsUpperCase()
    ensures Accepts("YES")
  {
    assert Lower("YES"[0..3]) == "yes";
    CoreAccepted("YES", 0, 3);
  }

  /** Case does not matter: "Yes". */
  lemma AcceptsMixedCase()
    ensures Accepts("Yes")
  {
    assert Lower("Yes"[0..3]) == "yes";
    CoreAccepted("Yes", 0, 3);
  }

  /** Case does not matter: "Y". */
  lemma AcceptsUpperLetter()
    ensures Accepts("Y")
  {
    assert Lower("Y"[0..1]) == "y";
    CoreAccepted("Y", 0, 1);
  }

  /** Surrounding whitespace does not matter: " Y ". */
  lemma AcceptsPadded()
    ensures Accepts(" Y ")
  {
    assert Lower(" Y "[1..2]) == "y";
    CoreAccepted(" Y ", 1, 2);
  }

  /** Surrounding whitespace does not matter: a trailing line feed. */
  lemma AcceptsLineFeed()
    ensures Accepts("yes\n")
  {
    assert Lower("yes\n"[0..3]) == "yes";
    CoreAccepted("yes\n", 0, 3);
  }

  /** Any other core, however it is padded, is a refusal. */
  lemma CoreRejected(answer: string, i: int, j: int)
    requires Core(answer, i, j) && i < j
    requires !IsWhitespace(answer[i]) && !IsWhitespace(answer[j - 1])
    requires Lower(answer[i..j]) != "yes" && Lower(answer[i..j]) != "y"
    ensures !Accepts(answer)
  {
    var low := Lower(answer);
    LowerSlice(answer, i, j);
    assert Core(low, i, j);
    TrimIsCore(low, i, j);
  }

  /** "no" is a refusal. */
  lemma RejectsNo()
    ensures !Accepts("no")
  {
    assert Lower("no"[0..2]) == "no";
    CoreRejected("no", 0, 2);
  }

  /** A prefix of "yes" other than "y" is a refusal. */
  lemma RejectsPrefix()
    ensures !Accepts("ye")
  {
    assert Lower("ye"[0..2]) == "ye";
    CoreRejected("ye", 0, 2);
  }

  /** A longer word starting with "ye" is a refusal. */
  lemma RejectsLonger()
    ensures !Accepts("yeah")
  {
    assert Lower("yeah"[0..4]) == "yeah";
    CoreRejected("yeah", 0, 4);
  }

  /** Inner whitespace is kept, so "y es" is a refusal. */
  lemma RejectsInnerSpace()
    ensures !Accepts("y es")
  {
    assert Lower("y es"[0..4]) == "y es";
    CoreRejected("y es", 0, 4);
  }

  /** The empty answer is a refusal. */
  lemma RejectsEmpty()
    ensures !Accepts("")
  {
    assert Lower("") == "";
    AllWhitespaceTrims("");
  }
}
