/**
 * Counting up a stage value: numbers by one, letters as A, B, .. Z, AA, AB and so on, which is
 * bijective base 26.
 */
module StageValue {
  import opened Text

  /** Letters as numbers 0 to 25. */
  newtype Letter = x: int | 0 <= x < 26

  // ---- The carry ----

  /** One step up: the last letter moves on, Z turns to A and carries. */
  function Next(chars: seq<Letter>): seq<Letter>
    decreases |chars|
  {
    if chars == [] then [0]
    else
      var front, last := chars[..|chars| - 1], chars[|chars| - 1];
      if last < 25 then front + [last + 1] else Next(front) + [0]
  }

  method CarryUp(input: seq<Letter>) returns (chars: seq<Letter>)
    ensures chars == Next(input)
  {
    chars := input;
    var carry := 1;
    var i := |chars|;
    assert input[..|input|] == input;
    while i > 0 && carry != 0
      invariant 0 <= i <= |chars| == |input|
      invariant carry == 0 || carry == 1
      invariant carry == 1 ==> chars[..i] == input[..i] && Next(input) == Next(input[..i]) + chars[i..]
      invariant carry == 0 ==> chars == Next(input)
      decreases i
    {
      i := i - 1;
      var next := chars[i] as int + carry;
      ghost var before := chars;
      assert input[..i + 1][..i] == input[..i] && input[..i + 1][i] == before[i];
      chars := chars[i := (next % 26) as Letter];
      carry := next / 26;
      assert chars[i..] == [(next % 26) as Letter] + before[i + 1..];
      assert chars == input[..i] + chars[i..];
    }
    if carry != 0 {
      assert chars[0..] == chars && input[..0] == [];
      chars := [(carry - 1) as Letter] + chars;
    }
  }

  // ---- Bijective base 26 ----

  function Value(chars: seq<Letter>): nat
    decreases |chars|
  {
    if chars == [] then 0 else 26 * Value(chars[..|chars| - 1]) + chars[|chars| - 1] as int + 1
  }

  function Letters(n: nat): seq<Letter> {
    if n == 0 then [] else Letters((n - 1) / 26) + [((n - 1) % 26) as Letter]
  }

  /** The step adds exactly one. */
  lemma {:induction false} NextAddsOne(chars: seq<Letter>)
    ensures Value(Next(chars)) == Value(chars) + 1
    decreases |chars|
  {
    if chars != [] {
      var front := chars[..|chars| - 1];
      NextAddsOne(front);
      assert Next(chars)[..|Next(chars)| - 1] == if chars[|chars| - 1] < 25 then front else Next(front);
    }
  }

  lemma {:induction false} ValueOfLetters(n: nat)
    ensures Value(Letters(n)) == n
  {
    if n > 0 {
      ValueOfLetters((n - 1) / 26);
      assert Letters(n)[..|Letters(n)| - 1] == Letters((n - 1) / 26);
    }
  }

  /** Every string of letters is the numeral of its value: no two strings share one. */
  lemma {:induction false} LettersOfValue(chars: seq<Letter>)
    ensures Letters(Value(chars)) == chars
    decreases |chars|
  {
    if chars != [] {
      var front, last := chars[..|chars| - 1], chars[|chars| - 1] as int;
      LettersOfValue(front);
      assert (Value(chars) - 1) / 26 == Value(front) && (Value(chars) - 1) % 26 == last;
      assert chars == front + [chars[|chars| - 1]];
    }
  }

  function Times(k: nat, chars: seq<Letter>): seq<Letter> {
    if k == 0 then chars else Next(Times(k - 1, chars))
  }

  lemma {:induction false} TimesAdds(k: nat, chars: seq<Letter>)
    ensures Value(Times(k, chars)) == Value(chars) + k
  {
    if k > 0 {
      TimesAdds(k - 1, chars);
      NextAddsOne(Times(k - 1, chars));
    }
  }

  /** From A on, every letter string is reached, after exactly one number of steps. */
  lemma EnumeratesEverything(target: seq<Letter>, k: nat)
    requires target != []
    ensures Times(k, [0]) == target <==> k == Value(target) - 1
  {
    TimesAdds(k, [0]);
    ValueOfLetters(1);
    assert Letters(1) == [0];
    LettersOfValue(target);
    LettersOfValue(Times(k, [0]));
  }

  // ---- The stage value ----

  predicate IsLower(c: char) {
    'a' <= c <= 'z'
  }

  predicate IsUpper(c: char) {
    'A' <= c <= 'Z'
  }

  predicate AllDigits(v: string) {
    v != "" && forall i :: 0 <= i < |v| ==> IsDigit(v[i])
  }

  predicate AllLetters(v: string) {
    v != "" && forall i :: 0 <= i < |v| ==> IsLower(v[i]) || IsUpper(v[i])
  }

  function LetterOf(c: char): Letter
    requires IsLower(c) || IsUpper(c)
  {
    if IsLower(c) then (c as int - 'a' as int) as Letter else (c as int - 'A' as int) as Letter
  }

  function ToLetters(v: string): seq<Letter>
    requires AllLetters(v)
  {
    seq(|v|, i requires 0 <= i < |v| => LetterOf(v[i]))
  }

  function ToText(chars: seq<Letter>): string {
    seq(|chars|, i requires 0 <= i < |chars| => ('A' as int + chars[i] as int) as char)
  }

  method IncrementStageValue(value: string) returns (next: string)
    ensures var v := Trim(value);
      if v == "" then next == ""
      else if AllDigits(v) then AllDigits(next) && NumberOf(next) == NumberOf(v) + 1 && next == Digits(NumberOf(next))
      else if AllLetters(v) then AllLetters(next) && next == ToText(Next(ToLetters(v))) && ToLetters(next) == Next(ToLetters(v)) && forall c :: c in next ==> IsUpper(c)
      else next == v
  {
    var v := Trim(value);
    if v == "" {
      return "";
    }
    if AllDigits(v) {
      NumberOfDigits(NumberOf(v) + 1);
      next := Digits(NumberOf(v) + 1);
    } else if AllLetters(v) {
      var chars := CarryUp(ToLetters(v));
      NextNotEmpty(ToLetters(v));
      next := ToText(chars);
      assert ToLetters(next) == chars;
    } else {
      next := v;
    }
  }

  lemma NextNotEmpty(chars: seq<Letter>)
    ensures Next(chars) != []
  {}

  // ---- The step on characters ----

  /** The capital of an ASCII letter. */
  function Capital(c: char): char
    requires IsLower(c) || IsUpper(c)
  {
    if IsLower(c) then (c as int - 32) as char else c
  }

  function Capitals(v: string): string
    requires v == "" || AllLetters(v)
  {
    seq(|v|, i requires 0 <= i < |v| => Capital(v[i]))
  }

  lemma LetterReads(c: char)
    requires IsLower(c) || IsUpper(c)
    ensures 'A' as int + LetterOf(c) as int == Capital(c) as int
  {}

  lemma TextOf(v: string)
    requires AllLetters(v)
    ensures ToText(ToLetters(v)) == Capitals(v)
  {
    forall i | 0 <= i < |v| ensures ToText(ToLetters(v))[i] == Capitals(v)[i] {
      LetterReads(v[i]);
    }
  }

  lemma TextSnoc(chars: seq<Letter>, x: Letter)
    ensures ToText(chars + [x]) == ToText(chars) + [('A' as int + x as int) as char]
  {}

  /** In characters: the last letter moves to the one behind it in the alphabet, and Z becomes A behind a step of the rest. */
  lemma StepOnCharacters(v: string)
    requires AllLetters(v)
    ensures var front, last := v[..|v| - 1], Capital(v[|v| - 1]);
      ToText(Next(ToLetters(v))) ==
        if last != 'Z' then Capitals(front) + [(last as int + 1) as char]
        else (if front == "" then "A" else ToText(Next(ToLetters(front)))) + "A"
  {
    hide Next;
    var front := v[..|v| - 1];
    var chars, last := ToLetters(v), LetterOf(v[|v| - 1]);
    LetterReads(v[|v| - 1]);
    var begin: seq<Letter> := if front == "" then [] else ToLetters(front);
    assert chars == begin + [last];
    NextSnoc(begin, last);
    if last < 25 {
      TextSnoc(begin, last + 1);
      if front != "" {
        TextOf(front);
      }
    } else {
      TextSnoc(Next(begin), 0);
      NextOfNothing();
    }
  }

  lemma NextSnoc(front: seq<Letter>, last: Letter)
    ensures Next(front + [last]) == if last < 25 then front + [last + 1] else Next(front) + [0]
  {
    assert (front + [last])[..|front|] == front;
  }

  lemma NextOfNothing()
    ensures ToText(Next([])) == "A"
  {}

  /** The steps that the source names. */
  lemma DocumentedSteps()
    ensures ToText(Next(ToLetters("A"))) == "B" && ToText(Next(ToLetters("Z"))) == "AA" && ToText(Next(ToLetters("AZ"))) == "BA"
  {
    StepOnCharacters("A");
    StepOnCharacters("Z");
    StepOnCharacters("AZ");
    assert "AZ"[..1] == "A";
  }
}
