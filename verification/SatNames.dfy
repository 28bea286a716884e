/** Sat names (ord/src/sat.rs): the distance from the end of the supply, written with 26 letters
    and no zero. */
module SatNames {
  import opened Wrappers
  import opened SatEpochs

  datatype NameError = OutOfRange | InvalidCharacter(c: char)

  predicate IsLetter(c: char) {
    'a' <= c <= 'z'
  }

  predicate AllLetters(s: string) {
    forall i :: 0 <= i < |s| ==> IsLetter(s[i])
  }

  function Letter(digit: nat): (c: char)
    requires digit < 26
    ensures IsLetter(c) && (c as int) - ('a' as int) == digit
  {
    "abcdefghijklmnopqrstuvwxyz"[digit]
  }

  /** The letters of `x`, most significant first; there is no digit zero. */
  function Letters(x: nat): string {
    if x == 0 then "" else Letters((x - 1) / 26) + [Letter((x - 1) % 26)]
  }

  function Reversed(s: string): string {
    if s == "" then "" else Reversed(s[1..]) + [s[0]]
  }

  /** What a string of letters stands for, with no bound on its size. */
  function Value(s: string): nat
    requires AllLetters(s)
  {
    if s == "" then 0
    else Value(s[..|s| - 1]) * 26 + (s[|s| - 1] as int) - ('a' as int) + 1
  }

  /** The reader: it stops at the first bad character or overflow. */
  function Read(s: string): Result<nat, NameError> {
    if s == "" then Ok(0)
    else
      var x :- Read(s[..|s| - 1]);
      var c := s[|s| - 1];
      if !IsLetter(c) then Err(InvalidCharacter(c))
      else
        var next := x * 26 + (c as int) - ('a' as int) + 1;
        if next > SUPPLY then Err(OutOfRange) else Ok(next)
  }

  method Name(sat: nat) returns (name: string)
    requires sat <= SUPPLY
    ensures name == Letters(SUPPLY - sat)
  {
    hide Letter;
    var x: nat := SUPPLY - sat;
    var pushed := "";
    while x > 0
      invariant Letters(SUPPLY - sat) == Letters(x) + Reversed(pushed)
    {
      ghost var before := pushed;
      pushed := pushed + [Letter((x - 1) % 26)];
      ReversedPush(before, Letter((x - 1) % 26));
      assert Letters(x) + Reversed(before) == Letters((x - 1) / 26) + ([Letter((x - 1) % 26)] + Reversed(before));
      x := (x - 1) / 26;
    }
    name := Reversed(pushed);
  }

  method FromName(s: string) returns (r: Result<nat, NameError>)
    ensures r == match Read(s) case Ok(x) => Ok(SUPPLY - x) case Err(e) => Err(e)
    ensures r.Ok? ==> r.value <= SUPPLY
  {
    var x: nat := 0;
    var i := 0;
    while i < |s|
      invariant 0 <= i <= |s|
      invariant Read(s[..i]) == Ok(x) && x <= SUPPLY
    {
      var c := s[i];
      assert s[..i + 1][..i] == s[..i];
      if !IsLetter(c) {
        ReadStops(s, i + 1);
        return Err(InvalidCharacter(c));
      }
      x := x * 26 + (c as int) - ('a' as int) + 1;
      if x > SUPPLY {
        ReadStops(s, i + 1);
        return Err(OutOfRange);
      }
      i := i + 1;
    }
    assert s[..i] == s;
    return Ok(SUPPLY - x);
  }

  lemma {:induction false} ReversedPush(s: string, c: char)
    ensures Reversed(s + [c]) == [c] + Reversed(s)
  {
    if s != "" {
      ReversedPush(s[1..], c);
      assert (s + [c])[1..] == s[1..] + [c];
    }
  }

  /** A failure on a prefix is the failure of the whole string. */
  lemma {:induction false} ReadStops(s: string, n: nat)
    requires n <= |s| && Read(s[..n]).Err?
    ensures Read(s) == Err(Read(s[..n]).error)
  {
    if n == |s| {
      assert s[..n] == s;
    } else {
      var shorter := s[..|s| - 1];
      assert shorter[..n] == s[..n];
      ReadStops(shorter, n);
    }
  }

  /** What the reader accepts: letters only, standing for at most the supply. */
  lemma {:induction false} ReadAccepts(s: string)
    ensures Read(s).Ok? <==> AllLetters(s) && Value(s) <= SUPPLY
    ensures Read(s).Ok? ==> Read(s).value == Value(s)
  {
    if s != "" {
      var shorter, c := s[..|s| - 1], s[|s| - 1];
      assert s == shorter + [c];
      ReadAccepts(shorter);
    }
  }

  /** The letters before `k` are read, and the one at `k` is the first fault. */
  predicate FaultAt(s: string, k: nat, e: NameError) {
    && k < |s| && AllLetters(s[..k]) && Value(s[..k]) <= SUPPLY
    && match e
       case InvalidCharacter(c) => s[k] == c && !IsLetter(c)
       case OutOfRange => IsLetter(s[k]) && Value(s[..k]) * 26 + (s[k] as int) - ('a' as int) + 1 > SUPPLY
  }

  /** What the reader rejects, and why: the first bad character, or the first letter that leads beyond the
      supply. */
  lemma {:induction false} ReadRejects(s: string) returns (k: nat)
    requires Read(s).Err?
    ensures FaultAt(s, k, Read(s).error)
  {
    var n := |s| - 1;
    if Read(s[..n]).Err? {
      k := ReadRejects(s[..n]);
      assert s[..n][..k] == s[..k];
    } else {
      k := n;
      ReadAccepts(s[..n]);
    }
  }

  lemma {:induction false} LettersStandForNumber(x: nat)
    ensures AllLetters(Letters(x)) && Value(Letters(x)) == x
  {
    if x > 0 {
      LettersStandForNumber((x - 1) / 26);
      var name := Letters(x);
      assert name[..|name| - 1] == Letters((x - 1) / 26);
    }
  }

  lemma LastLetter(x: nat, c: char)
    requires IsLetter(c)
    ensures Letters(x * 26 + (c as int) - ('a' as int) + 1) == Letters(x) + [c]
  {
    var digit: nat := (c as int) - ('a' as int);
    assert (x * 26 + digit) / 26 == x && (x * 26 + digit) % 26 == digit;
    LetterOf(c);
  }

  lemma LetterOf(c: char)
    requires IsLetter(c)
    ensures Letter((c as int) - ('a' as int)) == c
  {
  }

  lemma {:induction false} NumberStandsForLetters(s: string)
    requires AllLetters(s)
    ensures Letters(Value(s)) == s
  {
    hide Letters, Letter;
    if s == "" {
      NoLetters();
    } else {
      var shorter, c := s[..|s| - 1], s[|s| - 1];
      NumberStandsForLetters(shorter);
      LastLetter(Value(shorter), c);
      assert s == shorter + [c];
    }
  }

  lemma NoLetters()
    ensures Letters(0) == ""
  {
  }

  /** Every sat has a name, its own, and the reader gives the sat back. */
  lemma NameRoundTrip(sat: nat)
    requires sat <= SUPPLY
    ensures Read(Letters(SUPPLY - sat)) == Ok(SUPPLY - sat)
  {
    hide Letters, Letter, Value, Read;
    LettersStandForNumber(SUPPLY - sat);
    ReadAccepts(Letters(SUPPLY - sat));
  }

  /** Every accepted name is the name of the sat it stands for. */
  lemma AcceptedName(s: string)
    requires Read(s).Ok?
    ensures Letters(Read(s).value) == s
  {
    ReadAccepts(s);
    NumberStandsForLetters(s);
  }
}
