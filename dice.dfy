/** The dice roller: NdS notation parsed against DICE_RE and range-checked, a roll of n dice
    with s sides, and the running history of rolls. */
module DiceRolling {
  import opened Results
  import opened PyText

  datatype DiceError =
    | InvalidFormat   // "Invalid format. Use NdS like 2d6 or d20."
    | OutOfRange      // "Out of range. 1–1000 dice, each with 2–1,000,000 sides."

  const MAX_DICE: nat := 1000
  const MAX_SIDES: nat := 1000000

  /** The leading run of decimal digits. */
  function LeadingDigits(s: string): (r: string)
    ensures |r| <= |s| && r == s[..|r|]
    ensures AllDigits(r)
    ensures |r| < |s| ==> !IsDigit(s[|r|])
  {
    if s != [] && IsDigit(s[0]) then [s[0]] + LeadingDigits(s[1..]) else []
  }

  predicate IsDee(c: char) {
    c == 'd' || c == 'D'
  }

  /** The part of DICE_RE before the d: leading blanks, the count group \d*, blanks. Gives
      the count group and what follows the blanks after it. */
  function Head(s: string): (r: (string, string))
    ensures AllDigits(r.0)
  {
    var a := TrimStart(s);
    var count := LeadingDigits(a);
    (count, TrimStart(a[|count|..]))
  }

  /** The part of DICE_RE from the d on: [dD], blanks, the sides group \d+, blanks, the end. */
  function Tail(t: string): (r: Option<string>)
    ensures r.Some? ==> AllDigits(r.value) && |r.value| > 0
  {
    if t == [] || !IsDee(t[0]) then None
    else
      var c := TrimStart(t[1..]);
      var sides := LeadingDigits(c);
      if sides == [] || !AllSpace(c[|sides|..]) then None else Some(sides)
  }

  /** DICE_RE.match(s), ^\s*(\d*)\s*[dD]\s*(\d+)\s*$, giving its two groups when it matches:
      each \s* and \d* takes its whole run, which is the only way the pattern can match. */
  function DiceMatch(s: string): (r: Option<(string, string)>)
    ensures r.Some? ==> AllDigits(r.value.0) && AllDigits(r.value.1) && |r.value.1| > 0
  {
    var (count, rest) := Head(s);
    match Tail(rest)
    case None => None
    case Some(sides) => Some((count, sides))
  }

  /** parse_dice: blank input means 1d6; otherwise the notation must match, a missing count
      is 1, and the count must be 1..1000 and the sides 2..1000000. */
  function ParseDice(s: string): (r: Result<(nat, nat), DiceError>)
    ensures r.Ok? ==> 1 <= r.value.0 <= MAX_DICE && 2 <= r.value.1 <= MAX_SIDES
  {
    if Strip(s) == [] then Ok((1, 6))
    else
      match DiceMatch(s)
      case None => Err(InvalidFormat)
      case Some((count, sides)) => Groups(count, sides)
  }

  /** The conversion and range check of the two groups; an empty count group means one die. */
  function Groups(count: string, sides: string): (r: Result<(nat, nat), DiceError>)
    requires AllDigits(count) && AllDigits(sides)
    ensures r.Ok? <==>
      (count == [] || 1 <= ParseNat(count) <= MAX_DICE) && 2 <= ParseNat(sides) <= MAX_SIDES
    ensures r.Ok? ==> r.value == (if count == [] then 1 else ParseNat(count), ParseNat(sides))
    ensures r.Ok? ==> 1 <= r.value.0 <= MAX_DICE && 2 <= r.value.1 <= MAX_SIDES
    ensures r.Err? ==> r.error == OutOfRange
  {
    var n := if count == [] then 1 else ParseNat(count);
    var m := ParseNat(sides);
    if n < 1 || m < 2 || n > MAX_DICE || m > MAX_SIDES then Err(OutOfRange) else Ok((n, m))
  }

  // ---------------------------------------------------------------------------------------
  // The scanner against the pattern

  /** Text the pattern accepts: blanks, optional count digits, blanks, d or D, blanks, at least
      one sides digit, blanks. */
  predicate Notation(w1: string, count: string, w2: string, dee: char, w3: string, sides: string, w4: string) {
    AllSpace(w1) && AllDigits(count) && AllSpace(w2) && IsDee(dee) &&
    AllSpace(w3) && AllDigits(sides) && |sides| > 0 && AllSpace(w4)
  }

  lemma {:induction false} TrimStartSkips(w: string, t: string)
    requires AllSpace(w) && (t == [] || !IsSpace(t[0]))
    ensures TrimStart(w + t) == t
  {
    if w != [] {
      assert (w + t)[1..] == w[1..] + t;
      TrimStartSkips(w[1..], t);
    } else {
      assert w + t == t;
    }
  }

  lemma {:induction false} LeadingDigitsTakes(g: string, t: string)
    requires AllDigits(g) && (t == [] || !IsDigit(t[0]))
    ensures LeadingDigits(g + t) == g
  {
    if g != [] {
      assert (g + t)[1..] == g[1..] + t;
      LeadingDigitsTakes(g[1..], t);
    } else {
      assert g + t == t;
    }
  }

  lemma AllSpaceConcat(a: string, b: string)
    requires AllSpace(a) && AllSpace(b)
    ensures AllSpace(a + b)
  {
    assert forall i :: 0 <= i < |a + b| ==> (a + b)[i] == if i < |a| then a[i] else b[i - |a|];
  }

  // Sequence regrouping, kept apart from the scanner's functions so that each proof stays small.


  lemma Regroup3(a: string, b: string, c: string, d: string)
    ensures a + b + c + d == a + (b + (c + d))
    ensures a + b + c + d == (a + b) + (c + d)
  {
  }

  lemma Rebuild3(s: string, w1: string, a: string, count: string, r: string, w2: string, b: string)
    requires s == w1 + a && a == count + r && r == w2 + b
    ensures s == w1 + count + w2 + b
  {
  }

  lemma Rebuild7(s: string, w1: string, count: string, w2: string, t: string, dee: char, w3: string, sides: string, w4: string)
    requires s == w1 + count + w2 + t && t == [dee] + w3 + sides + w4
    ensures s == w1 + count + w2 + [dee] + w3 + sides + w4
  {
  }

  lemma Regroup7(w1: string, count: string, w2: string, dee: char, w3: string, sides: string, w4: string)
    ensures w1 + count + w2 + [dee] + w3 + sides + w4 == (w1 + count + w2) + [dee] + (w3 + sides + w4)
  {
  }

  lemma {:induction false} TrimStartSplit(u: string)
    ensures u == u[..|u| - |TrimStart(u)|] + TrimStart(u)
  {
  }

  lemma {:induction false} LeadingDigitsSplit(c: string)
    ensures c == LeadingDigits(c) + c[|LeadingDigits(c)|..]
  {
  }

  lemma TailComplete(dee: char, w3: string, sides: string, w4: string)
    requires IsDee(dee) && AllSpace(w3) && AllDigits(sides) && |sides| > 0 && AllSpace(w4)
    ensures Tail([dee] + w3 + sides + w4) == Some(sides)
  {
    var t := [dee] + w3 + sides + w4;
    Regroup3([dee], w3, sides, w4);
    assert t[1..] == w3 + (sides + w4);
    assert !IsSpace((sides + w4)[0]);
    TrimStartSkips(w3, sides + w4);
    LeadingDigitsTakes(sides, w4);
    assert (sides + w4)[|sides|..] == w4;
  }

  lemma HeadComplete(w1: string, count: string, w2: string, t: string)
    requires AllSpace(w1) && AllDigits(count) && AllSpace(w2)
    requires t == [] || (!IsSpace(t[0]) && !IsDigit(t[0]))
    ensures Head(w1 + count + w2 + t) == (count, t)
  {
    var s := w1 + count + w2 + t;
    Regroup3(w1, count, w2, t);
    if count == [] {
      assert s == (w1 + w2) + t;
      AllSpaceConcat(w1, w2);
      TrimStartSkips(w1 + w2, t);
      LeadingDigitsTakes([], t);
      assert [] + t == t;
      TrimStartSkips([], t);
    } else {
      var after := count + (w2 + t);
      assert !IsSpace(after[0]);
      TrimStartSkips(w1, after);
      assert w2 + t == [] || !IsDigit((w2 + t)[0]);
      LeadingDigitsTakes(count, w2 + t);
      assert after[|count|..] == w2 + t;
      TrimStartSkips(w2, t);
    }
  }

  /** The scanner finds the groups of every text the pattern accepts. */
  lemma MatchComplete(w1: string, count: string, w2: string, dee: char, w3: string, sides: string, w4: string)
    requires Notation(w1, count, w2, dee, w3, sides, w4)
    ensures DiceMatch(w1 + count + w2 + [dee] + w3 + sides + w4) == Some((count, sides))
  {
    var t := [dee] + w3 + sides + w4;
    var s := w1 + count + w2 + t;
    Rebuild7(s, w1, count, w2, t, dee, w3, sides, w4);
    TailComplete(dee, w3, sides, w4);
    HeadComplete(w1, count, w2, t);
  }

  lemma HeadSound(s: string) returns (w1: string, w2: string)
    ensures AllSpace(w1) && AllSpace(w2) && AllDigits(Head(s).0)
    ensures s == w1 + Head(s).0 + w2 + Head(s).1
  {
    var a := TrimStart(s);
    var count := LeadingDigits(a);
    var r := a[|count|..];
    var b := TrimStart(r);
    w1 := s[..|s| - |a|];
    w2 := r[..|r| - |b|];
    TrimStartSplit(s);
    LeadingDigitsSplit(a);
    TrimStartSplit(r);
    Rebuild3(s, w1, a, count, r, w2, b);
  }
  lemma TailSound(t: string) returns (dee: char, w3: string, w4: string)
    requires Tail(t).Some?
    ensures IsDee(dee) && AllSpace(w3) && AllDigits(Tail(t).value) && |Tail(t).value| > 0 && AllSpace(w4)
    ensures t == [dee] + w3 + Tail(t).value + w4
  {
    TailParts(t);
    dee := t[0];
    w3, w4 := TailPieces(t, t[1..], TrimStart(t[1..]), Tail(t).value);
  }

  /** A first character, blanks, a prefix sides, then blanks: the shape of Tail's scans. */
  lemma TailPieces(t: string, u: string, c: string, sides: string) returns (w3: string, w4: string)
    requires t != [] && u == t[1..]
    requires |c| <= |u| && c == u[|u| - |c|..] && AllSpace(u[..|u| - |c|])
    requires |sides| <= |c| && sides == c[..|sides|] && AllSpace(c[|sides|..])
    ensures AllSpace(w3) && AllSpace(w4) && t == [t[0]] + w3 + sides + w4
  {
    w3 := u[..|u| - |c|];
    w4 := c[|sides|..];
    assert t == [t[0]] + u;
    assert u == w3 + c;
    assert c == sides + w4;
    Reassemble(t, t[0], u, w3, c, sides, w4);
  }


  /** What Tail checked when it succeeded. */
  lemma {:induction false} TailParts(t: string)
    requires Tail(t).Some?
    ensures t != [] && IsDee(t[0])
    ensures Tail(t).value == LeadingDigits(TrimStart(t[1..]))
    ensures AllSpace(TrimStart(t[1..])[|Tail(t).value|..])
  {
  }

  lemma {:induction false} Reassemble(t: string, dee: char, u: string, w3: string, c: string, sides: string, w4: string)
    requires t == [dee] + u && u == w3 + c && c == sides + w4
    ensures t == [dee] + w3 + sides + w4
  {
  }

  /** Whatever the scanner accepts has the shape of the pattern, the groups in their places. */
  lemma MatchSound(s: string) returns (w1: string, w2: string, dee: char, w3: string, w4: string)
    requires DiceMatch(s).Some?
    ensures Notation(w1, DiceMatch(s).value.0, w2, dee, w3, DiceMatch(s).value.1, w4)
    ensures s == w1 + DiceMatch(s).value.0 + w2 + [dee] + w3 + DiceMatch(s).value.1 + w4
  {
    w1, w2 := HeadSound(s);
    dee, w3, w4 := TailSound(Head(s).1);
    Rebuild7(s, w1, Head(s).0, w2, Head(s).1, dee, w3, Tail(Head(s).1).value, w4);
  }

  lemma NotBlank(a: string, c: char, b: string)
    requires !IsSpace(c)
    ensures !AllSpace(a + [c] + b)
  {
    assert (a + [c] + b)[|a|] == c;
  }

  // ---------------------------------------------------------------------------------------
  // What parse_dice returns

  /** Blank input is the default roll of one six-sided die. */
  lemma BlankIsDefault(s: string)
    requires AllSpace(s)
    ensures ParseDice(s) == Ok((1, 6))
  {
  }

  /** Text that is not blank and does not have the pattern's shape is an invalid format. */
  lemma MalformedRejected(s: string)
    requires !AllSpace(s)
    requires forall w1, count, w2, dee, w3, sides, w4 ::
      Notation(w1, count, w2, dee, w3, sides, w4) ==> s != w1 + count + w2 + [dee] + w3 + sides + w4
    ensures ParseDice(s) == Err(InvalidFormat)
  {
    if DiceMatch(s).Some? {
      var w1, w2, dee, w3, w4 := MatchSound(s);
    }
  }

  /** Once the pattern has matched, parse_dice only converts and range-checks the groups. */
  lemma ParseMatched(s: string, count: string, sides: string)
    requires !AllSpace(s) && DiceMatch(s) == Some((count, sides))
    ensures AllDigits(count) && AllDigits(sides) && ParseDice(s) == Groups(count, sides)
  {
  }

  /** Text of the pattern's shape parses to its count (1 when there are no count digits) and
      its sides when both are in range, and is out of range otherwise. */
  lemma WellFormedParses(w1: string, count: string, w2: string, dee: char, w3: string, sides: string, w4: string)
    requires Notation(w1, count, w2, dee, w3, sides, w4)
    ensures ParseDice(w1 + count + w2 + [dee] + w3 + sides + w4) == Groups(count, sides)
  {
    var s := w1 + count + w2 + [dee] + w3 + sides + w4;
    MatchComplete(w1, count, w2, dee, w3, sides, w4);
    Regroup7(w1, count, w2, dee, w3, sides, w4);
    NotBlank(w1 + count + w2, dee, w3 + sides + w4);
    ParseMatched(s, count, sides);
  }

  /** parse_dice(f"{n}d{sides}") == (n, sides) for every count and sides in range, with a
      lower-case or a capital d, and a count or sides out of range is refused. */
  lemma RoundTrip(n: nat, dee: char, sides: nat)
    requires IsDee(dee)
    ensures ParseDice(NatToString(n) + [dee] + NatToString(sides)) ==
      if 1 <= n <= MAX_DICE && 2 <= sides <= MAX_SIDES then Ok((n, sides)) else Err(OutOfRange)
  {
    ParseNatToString(n);
    ParseNatToString(sides);
    var count, digits := NatToString(n), NatToString(sides);
    assert count + [dee] + digits == [] + count + [] + [dee] + [] + digits + [];
    WellFormedParses([], count, [], dee, [], digits, []);
  }

  /** A missing count is one die: parse_dice(f"d{sides}") == (1, sides). */
  lemma DefaultCount(dee: char, sides: nat)
    requires IsDee(dee) && 2 <= sides <= MAX_SIDES
    ensures ParseDice([dee] + NatToString(sides)) == Ok((1, sides))
  {
    ParseNatToString(sides);
    NoCount(dee, NatToString(sides));
  }

  lemma NoCount(dee: char, digits: string)
    requires IsDee(dee) && AllDigits(digits) && |digits| > 0
    ensures ParseDice([dee] + digits) == Groups([], digits)
  {
    assert [dee] + digits == [] + [] + [] + [dee] + [] + digits + [];
    WellFormedParses([], [], [], dee, [], digits, []);
  }
  /** Leading zeros do not change the numbers: parse_dice("007d06") == (7, 6), and likewise
      for every padding of a count and sides, in range or not. */
  lemma PaddedRoundTrip(j: nat, n: nat, dee: char, k: nat, sides: nat)
    requires IsDee(dee)
    ensures ParseDice(Zeros(j) + NatToString(n) + [dee] + Zeros(k) + NatToString(sides)) ==
      if 1 <= n <= MAX_DICE && 2 <= sides <= MAX_SIDES then Ok((n, sides)) else Err(OutOfRange)
  {
    ParseNatToString(n);
    ParseNatToString(sides);
    PaddedValue(j, NatToString(n));
    PaddedValue(k, NatToString(sides));
    Padded(Zeros(j), NatToString(n), dee, Zeros(k), NatToString(sides));
  }

  /** Padded count digits, d, padded sides digits, with no blanks between: parsing is the
      conversion of the two padded groups. */
  lemma Padded(z1: string, count: string, dee: char, z2: string, digits: string)
    requires IsDee(dee) && AllDigits(z1 + count) && AllDigits(z2 + digits) && |z2 + digits| > 0
    ensures ParseDice(z1 + count + [dee] + z2 + digits) == Groups(z1 + count, z2 + digits)
  {
    assert z1 + count + [dee] + z2 + digits == [] + (z1 + count) + [] + [dee] + [] + (z2 + digits) + [];
    WellFormedParses([], z1 + count, [], dee, [], z2 + digits, []);
  }

  // ---------------------------------------------------------------------------------------
  // Rolling

  /** roll_dice(n, sides): random.randint(1, sides) n times, the generator's draws given as a
      stream; draw i becomes 1 + draws(i) % sides. randint(1, sides) needs sides >= 1. */
  function RollDice(n: nat, sides: nat, draws: nat -> nat): (rolls: seq<nat>)
    requires sides >= 1
    ensures |rolls| == n
    ensures forall i :: 0 <= i < n ==> 1 <= rolls[i] <= sides
  {
    seq(n, i requires 0 <= i => 1 + draws(i) % sides)
  }

  /** The draw that makes die i come out as outcome[i]. */
  function DrawFor(outcome: seq<nat>, i: nat): nat {
    if i < |outcome| && outcome[i] > 0 then outcome[i] - 1 else 0
  }

  /** Every list of n results in 1..sides is the outcome of some draws. */
  lemma RollDiceCovers(sides: nat, outcome: seq<nat>)
    requires sides >= 1 && forall i :: 0 <= i < |outcome| ==> 1 <= outcome[i] <= sides
    ensures RollDice(|outcome|, sides, i => DrawFor(outcome, i)) == outcome
  {
    var rolls := RollDice(|outcome|, sides, i => DrawFor(outcome, i));
    forall i | 0 <= i < |outcome|
      ensures rolls[i] == outcome[i]
    {
      var d := DrawFor(outcome, i);
      SmallRemainder(d, sides);
      assert rolls[i] == 1 + d % sides;
    }
    assert |rolls| == |outcome|;
  }

  lemma SmallRemainder(x: nat, m: nat)
    requires x < m
    ensures x % m == x
  {
  }

  /** sum(rolls). */
  function Total(rolls: seq<nat>): nat {
    if rolls == [] then 0 else Total(rolls[..|rolls| - 1]) + rolls[|rolls| - 1]
  }

  /** A total of n rolls in 1..sides lies between n and n * sides. */
  lemma {:induction false} TotalBounds(rolls: seq<nat>, sides: nat)
    requires forall i :: 0 <= i < |rolls| ==> 1 <= rolls[i] <= sides
    ensures |rolls| <= Total(rolls) <= |rolls| * sides
  {
    if rolls != [] {
      var init, last := rolls[..|rolls| - 1], rolls[|rolls| - 1];
      assert forall i :: 0 <= i < |init| ==> init[i] == rolls[i];
      TotalBounds(init, sides);
      assert Total(rolls) == Total(init) + last;
      OneMore(|init|, sides);
    }
  }

  lemma OneMore(n: nat, m: nat)
    ensures (n + 1) * m == n * m + m
  {
  }

  /** One entry of the history: (notation, rolls, total). */
  datatype RollRecord = RollRecord(notation: string, rolls: seq<nat>, total: nat)

  /** An entry as main records it: its notation parses to the count and sides it was rolled
      with, it has one result per die, each in range, and its total is their sum. */
  predicate WellFormed(rec: RollRecord) {
    var p := ParseDice(rec.notation);
    p.Ok? && |rec.rolls| == p.value.0 &&
    (forall i :: 0 <= i < |rec.rolls| ==> 1 <= rec.rolls[i] <= p.value.1) &&
    rec.total == Total(rec.rolls)
  }

  /** The entry main appends after rolling n dice with the given sides. */
  lemma RecordWellFormed(n: nat, sides: nat, draws: nat -> nat)
    requires 1 <= n <= MAX_DICE && 2 <= sides <= MAX_SIDES
    ensures var rolls := RollDice(n, sides, draws);
      WellFormed(RollRecord(NatToString(n) + "d" + NatToString(sides), rolls, Total(rolls)))
  {
    RoundTrip(n, 'd', sides);
    assert "d" == ['d'];
  }

  /** Appending a well-formed entry keeps every entry of the history well-formed. */
  lemma AppendWellFormed(h: seq<RollRecord>, rec: RollRecord)
    requires forall i :: 0 <= i < |h| ==> WellFormed(h[i])
    requires WellFormed(rec)
    ensures forall i :: 0 <= i < |h + [rec]| ==> WellFormed((h + [rec])[i])
  {
    forall i | 0 <= i < |h + [rec]| ensures WellFormed((h + [rec])[i]) {
      if i < |h| {
        assert (h + [rec])[i] == h[i];
      } else {
        assert (h + [rec])[i] == rec;
      }
    }
  }

  /** The module-level history list that main appends to and clears. */
  class RollLog {
    var history: seq<RollRecord>

    ghost predicate Valid()
      reads this
    {
      forall i :: 0 <= i < |history| ==> WellFormed(history[i])
    }

    constructor()
      ensures history == [] && Valid()
    {
      history := [];
    }

    /** One roll of main's loop on an already stripped line: a parse error leaves the history
        as it was; otherwise the dice are rolled and exactly one entry is appended. */
    method Roll(line: string, draws: nat -> nat) returns (r: Result<RollRecord, DiceError>)
      requires Valid()
      modifies this
      ensures Valid()
      ensures ParseDice(line).Err? ==> r == Err(ParseDice(line).error) && history == old(history)
      ensures ParseDice(line).Ok? ==>
        var (n, sides) := ParseDice(line).value;
        r.Ok? && history == old(history) + [r.value] &&
        r.value.notation == NatToString(n) + "d" + NatToString(sides) &&
        r.value.rolls == RollDice(n, sides, draws) && r.value.total == Total(r.value.rolls)
    {
      var parsed := ParseDice(line);
      if parsed.Err? {
        return Err(parsed.error);
      }
      var (n, sides) := parsed.value;
      var notation := NatToString(n) + "d" + NatToString(sides);
      var rolls := RollDice(n, sides, draws);
      var rec := RollRecord(notation, rolls, Total(rolls));
      RecordWellFormed(n, sides, draws);
      AppendWellFormed(history, rec);
      history := history + [rec];
      r := Ok(rec);
    }

    /** The "clear" command. */
    method Clear()
      modifies this
      ensures history == [] && Valid()
    {
      history := [];
    }
  }
}
