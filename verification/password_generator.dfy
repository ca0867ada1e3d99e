/** The password generator: unbiased indexes by rejection sampling, one character of each class, and an
    in-place Fisher-Yates shuffle. The random source is a finite tape of 32-bit draws; asking for one
    more than it holds is the failure of the system's generator. */
module PasswordGenerator {
  import opened Division
  import opened Wrappers

  const U32_MAX: nat := 0xFFFF_FFFF

  type Draw = d: nat | d <= U32_MAX

  type Octet = c: char | c as int < 256 witness 'a'

  const MIN_PASSWORD_LENGTH: nat := 16
  const MAX_PASSWORD_LENGTH: nat := 128
  const DEFAULT_GENERATED_PASSWORD_LENGTH: nat := 24

  // ---- policy --------------------------------------------------------------------------------------------

  predicate IsLower(c: Octet) { 'a' <= c <= 'z' }

  predicate IsUpper(c: Octet) { 'A' <= c <= 'Z' }

  predicate IsDigit(c: Octet) { '0' <= c <= '9' }

  /** `is_ascii_whitespace`: space, tab, line feed, form feed, carriage return; not vertical tab. */
  predicate IsBlankOctet(c: Octet) {
    c == ' ' || c == '\t' || c == '\n' || c as int == 12 || c == '\r'
  }

  predicate IsSymbol(c: Octet) {
    !IsLower(c) && !IsUpper(c) && !IsDigit(c) && !IsBlankOctet(c)
  }

  // No l, I, O, 0 or 1 among the letters and digits.

  function LowercaseCharset(): (r: seq<Octet>)
    ensures |r| == 25 && forall k :: 0 <= k < |r| ==> IsLower(r[k])
  {
    "abcdefghijkmnopqrstuvwxyz"
  }

  function UppercaseCharset(): (r: seq<Octet>)
    ensures |r| == 24 && forall k :: 0 <= k < |r| ==> IsUpper(r[k])
  {
    "ABCDEFGHJKLMNPQRSTUVWXYZ"
  }

  function DigitCharset(): (r: seq<Octet>)
    ensures |r| == 8 && forall k :: 0 <= k < |r| ==> IsDigit(r[k])
  {
    "23456789"
  }

  function SymbolCharset(): (r: seq<Octet>)
    ensures |r| == 24 && forall k :: 0 <= k < |r| ==> IsSymbol(r[k])
  {
    "!@#$%^&*()-_=+[]{}:;,.?/"
  }

  function CombinedCharset(): (r: seq<Octet>)
    ensures |r| == 81
    ensures forall c :: c in r <==>
      c in LowercaseCharset() || c in UppercaseCharset() || c in DigitCharset() || c in SymbolCharset()
  {
    LowercaseCharset() + UppercaseCharset() + DigitCharset() + SymbolCharset()
  }

  /** The eight printable symbols that are never generated. */
  predicate LeftOutSymbol(c: Octet) {
    c == '"' || c == '\'' || c == '<' || c == '>' || c == '\\' || c == '`' || c == '|' || c == '~'
  }

  /** Each alphabet has every character of its class but those easily misread; by its length, each once. */
  lemma CharsetsAreFull(c: Octet)
    ensures c in LowercaseCharset() <==> IsLower(c) && c != 'l'
    ensures c in UppercaseCharset() <==> IsUpper(c) && c != 'I' && c != 'O'
    ensures c in DigitCharset() <==> IsDigit(c) && c != '0' && c != '1'
  {
  }

  lemma SymbolsAreFull(c: Octet)
    ensures c in SymbolCharset() <==> IsSymbol(c) && '!' <= c <= '~' && !LeftOutSymbol(c)
  {
  }

  predicate PolicyOk(p: seq<Octet>) {
    && MIN_PASSWORD_LENGTH <= |p| <= MAX_PASSWORD_LENGTH
    && (forall c :: c in p ==> !IsBlankOctet(c))
    && (exists c :: c in p && IsLower(c))
    && (exists c :: c in p && IsUpper(c))
    && (exists c :: c in p && IsDigit(c))
    && (exists c :: c in p && IsSymbol(c))
  }

  function ValidatePasswordPolicy(p: seq<Octet>): Result<()> {
    if PolicyOk(p) then Ok(()) else Err(Validation)
  }

  /** What the check asks of a password, character by character. */
  lemma ValidPasswordIff(p: seq<Octet>)
    ensures ValidatePasswordPolicy(p).Ok? <==>
      && 16 <= |p| <= 128
      && ' ' !in p && '\t' !in p && '\n' !in p && '\r' !in p && 12 as char !in p
      && (exists c :: c in p && 'a' <= c <= 'z')
      && (exists c :: c in p && 'A' <= c <= 'Z')
      && (exists c :: c in p && '0' <= c <= '9')
      && (exists c :: c in p && !('a' <= c <= 'z' || 'A' <= c <= 'Z' || '0' <= c <= '9'))
    ensures ValidatePasswordPolicy(p).Err? ==> ValidatePasswordPolicy(p).error == Validation
  {
  }

  /** The policy looks at which characters occur, not where. */
  lemma PolicyIgnoresOrder(p: seq<Octet>, q: seq<Octet>)
    requires multiset(p) == multiset(q)
    ensures PolicyOk(p) <==> PolicyOk(q)
  {
    assert |p| == |multiset(p)| && |q| == |multiset(q)|;
    assert forall c :: c in p <==> c in multiset(p);
    assert forall c :: c in q <==> c in multiset(q);
  }

  // ---- rejection sampling ----------------------------------------------------------------------------------

  predicate SupportedBound(bound: nat) {
    0 < bound <= U32_MAX
  }

  function Zone(bound: nat): nat
    requires SupportedBound(bound)
  {
    U32_MAX - U32_MAX % bound
  }

  lemma {:induction false} ResidueCount(q: nat, index: nat, bound: nat)
    requires index < bound
    ensures |set d: nat | d < q * bound && d % bound == index| == q
  {
    var all := set d: nat | d < q * bound && d % bound == index;
    if q > 0 {
      var fewer := set d: nat | d < (q - 1) * bound && d % bound == index;
      var last := (q - 1) * bound + index;
      ResidueCount(q - 1, index, bound);
      QuotientAndRemainder(last, q - 1, index, bound);
      assert q * bound == (q - 1) * bound + bound;
      forall d | d in all && d !in fewer
        ensures d == last
      {
        QuotientAndRemainder(d, q - 1, d - (q - 1) * bound, bound);
      }
      assert all == fewer + {last};
    }
  }

  /** The first accepted draw at or after `pos`: its index and the position behind it. */
  function NextIndex(tape: seq<Draw>, pos: nat, bound: nat): (r: Option<(nat, nat)>)
    requires SupportedBound(bound) && pos <= |tape|
    ensures r.Some? ==> r.value.0 < bound && pos < r.value.1 <= |tape|
    decreases |tape| - pos
  {
    if pos == |tape| then None
    else if tape[pos] < Zone(bound) then Some((tape[pos] % bound, pos + 1))
    else NextIndex(tape, pos + 1, bound)
  }

  /** The draws that give `index` when they come first. */
  function DrawsGiving(index: nat, bound: nat): set<nat>
    requires SupportedBound(bound)
  {
    set d: nat | d <= U32_MAX && NextIndex([d], 0, bound) == Some((index, 1))
  }

  /** The draw gives no index at all. */
  ghost predicate Rejected(d: Draw, bound: nat)
    requires SupportedBound(bound)
  {
    forall index: nat :: d !in DrawsGiving(index, bound)
  }

  lemma DrawGives(d: Draw, index: nat, bound: nat)
    requires SupportedBound(bound)
    ensures d in DrawsGiving(index, bound) <==> d < Zone(bound) && d % bound == index
  {
    assert NextIndex([d], 1, bound) == None;
  }

  lemma DrawGivesAtMost(d: Draw, bound: nat)
    requires SupportedBound(bound)
    ensures if d < Zone(bound) then forall index: nat :: d in DrawsGiving(index, bound) <==> index == d % bound
            else Rejected(d, bound)
  {
    hide DrawsGiving, NextIndex;
    forall index: nat ensures d in DrawsGiving(index, bound) <==> d < Zone(bound) && d % bound == index {
      DrawGives(d, index, bound);
    }
  }

  /** Every index has the same number of draws that give it, and more than half of all draws give one. */
  lemma SamplingIsUniform(index: nat, bound: nat)
    requires SupportedBound(bound) && index < bound
    ensures |DrawsGiving(index, bound)| == U32_MAX / bound
    ensures 2 * (U32_MAX / bound * bound) > U32_MAX
  {
    var q := U32_MAX / bound;
    ZoneIsMultiple(bound);
    ResidueCount(q, index, bound);
    hide DrawsGiving;
    forall d: nat ensures d in DrawsGiving(index, bound) <==> d < q * bound && d % bound == index {
      GivingDraws(d, index, bound);
    }
    assert DrawsGiving(index, bound) == set d: nat | d < q * bound && d % bound == index;
  }

  lemma GivingDraws(d: nat, index: nat, bound: nat)
    requires SupportedBound(bound)
    ensures d in DrawsGiving(index, bound) <==> d < Zone(bound) && d % bound == index
  {
    if d <= U32_MAX {
      DrawGives(d, index, bound);
    }
  }

  lemma ZoneIsMultiple(bound: nat)
    requires SupportedBound(bound)
    ensures Zone(bound) == U32_MAX / bound * bound
    ensures 2 * Zone(bound) > U32_MAX
  {
    var q := U32_MAX / bound;
    assert U32_MAX == q * bound + U32_MAX % bound;
    assert q >= 1;
    assert q * bound >= bound;
  }

  /** A draw that gives an index decides, whatever follows; any other draw is passed over, whatever came
      before it. */
  lemma DrawDecidesOrIsPassedOver(tape: seq<Draw>, pos: nat, bound: nat)
    requires SupportedBound(bound) && pos < |tape|
    ensures forall index: nat ::
      tape[pos] in DrawsGiving(index, bound) ==> NextIndex(tape, pos, bound) == Some((index, pos + 1))
    ensures Rejected(tape[pos], bound) ==> NextIndex(tape, pos, bound) == NextIndex(tape, pos + 1, bound)
  {
    DrawGivesAtMost(tape[pos], bound);
    assert tape[pos] < Zone(bound) ==> tape[pos] in DrawsGiving(tape[pos] % bound, bound);
  }

  /** Indexes for a list of bounds, drawn one after the other. */
  function Indexes(tape: seq<Draw>, pos: nat, bounds: seq<nat>): (r: Option<(seq<nat>, nat)>)
    requires pos <= |tape| && forall k :: 0 <= k < |bounds| ==> SupportedBound(bounds[k])
    ensures r.Some? ==> ValidIndexes(r.value.0, bounds) && r.value.1 <= |tape|
  {
    if bounds == [] then Some(([], pos))
    else
      match Indexes(tape, pos, bounds[..|bounds| - 1])
      case None => None
      case Some((indexes, mid)) =>
        match NextIndex(tape, mid, bounds[|bounds| - 1])
        case None => None
        case Some((index, end)) => Some((indexes + [index], end))
  }

  predicate ValidIndexes(indexes: seq<nat>, bounds: seq<nat>) {
    |indexes| == |bounds| && forall k :: 0 <= k < |indexes| ==> indexes[k] < bounds[k]
  }

  class RandomSource {
    const tape: seq<Draw>
    var pos: nat

    constructor (tape: seq<Draw>)
      ensures this.tape == tape && pos == 0
    {
      this.tape := tape;
      pos := 0;
    }

    method Fill() returns (r: Result<Draw>)
      requires pos <= |tape|
      modifies this`pos
      ensures old(pos) < |tape| ==> r == Ok(tape[old(pos)]) && pos == old(pos) + 1
      ensures old(pos) == |tape| ==> r == Err(Validation) && pos == old(pos)
    {
      if pos == |tape| {
        return Err(Validation);
      }
      r := Ok(tape[pos]);
      pos := pos + 1;
    }

    /** Draws until one is accepted; fails only for an unsupported bound or when the source does. */
    method RandomIndex(bound: nat) returns (r: Result<nat>)
      requires pos <= |tape|
      modifies this`pos
      ensures old(pos) <= pos <= |tape|
      ensures !SupportedBound(bound) ==> r == Err(Validation) && pos == old(pos)
      ensures SupportedBound(bound) ==>
        match NextIndex(tape, old(pos), bound)
        case Some((index, end)) => r == Ok(index) && pos == end
        case None => r == Err(Validation) && pos == |tape|
      // The last draw taken gives the index, and none of those before it gives any.
      ensures r.Ok? ==> pos > old(pos) && tape[pos - 1] in DrawsGiving(r.value, bound)
      ensures SupportedBound(bound) ==>
        forall i :: old(pos) <= i < (if r.Ok? then pos - 1 else pos) ==> Rejected(tape[i], bound)
    {
      if bound == 0 {
        return Err(Validation);
      }
      if bound > U32_MAX {
        return Err(Validation);
      }
      hide DrawsGiving, Rejected;
      var zone := U32_MAX - U32_MAX % bound;
      while true
        invariant old(pos) <= pos <= |tape|
        invariant NextIndex(tape, pos, bound) == NextIndex(tape, old(pos), bound)
        invariant forall i :: old(pos) <= i < pos ==> Rejected(tape[i], bound)
        decreases |tape| - pos
      {
        if pos < |tape| {
          DrawGivesAtMost(tape[pos], bound);
        }
        var candidate :- Fill();
        if candidate < zone {
          return Ok(candidate % bound);
        }
      }
    }

    method SampleFromCharset(charset: seq<Octet>) returns (r: Result<Octet>)
      requires pos <= |tape| && SupportedBound(|charset|)
      modifies this`pos
      ensures old(pos) <= pos <= |tape|
      ensures match NextIndex(tape, old(pos), |charset|)
              case Some((index, end)) => r == Ok(charset[index]) && pos == end
              case None => r.Err? && pos == |tape|
    {
      var index :- RandomIndex(|charset|);
      r := Ok(charset[index]);
    }
  }

  // ---- the shuffle -------------------------------------------------------------------------------------------

  function Swap<T>(s: seq<T>, i: nat, j: nat): (r: seq<T>)
    requires i < |s| && j < |s|
    ensures |r| == |s|
  {
    s[i := s[j]][j := s[i]]
  }

  /** One choice for each position `top`, `top - 1`, ..., each at most the position. */
  predicate ValidChoices(top: nat, choices: seq<nat>) {
    |choices| <= top && forall k :: 0 <= k < |choices| ==> choices[k] <= top - k
  }

  /** Fills the positions from `top` downwards with the chosen elements. */
  function Shuffled<T>(s: seq<T>, top: nat, choices: seq<nat>): (r: seq<T>)
    requires top < |s| && ValidChoices(top, choices)
    ensures |r| == |s|
    decreases |choices|
  {
    if choices == [] then s
    else Shuffled(Swap(s, top, choices[0]), top - 1, choices[1..])
  }

  lemma SwapKeepsContents<T>(s: seq<T>, i: nat, j: nat)
    requires i < |s| && j < |s|
    ensures multiset(Swap(s, i, j)) == multiset(s)
  {
  }

  lemma {:induction false} ShuffledKeepsContents<T>(s: seq<T>, top: nat, choices: seq<nat>)
    requires top < |s| && ValidChoices(top, choices)
    ensures multiset(Shuffled(s, top, choices)) == multiset(s)
    decreases |choices|
  {
    hide Swap;
    if choices != [] {
      SwapKeepsContents(s, top, choices[0]);
      ShuffledKeepsContents(Swap(s, top, choices[0]), top - 1, choices[1..]);
    }
  }

  lemma {:induction false} ShuffledKeepsAbove<T>(s: seq<T>, top: nat, choices: seq<nat>)
    requires top < |s| && ValidChoices(top, choices)
    ensures forall j :: top < j < |s| ==> Shuffled(s, top, choices)[j] == s[j]
    decreases |choices|
  {
    if choices != [] {
      ShuffledKeepsAbove(Swap(s, top, choices[0]), top - 1, choices[1..]);
    }
  }

  lemma {:induction false} ShuffledOneMore<T>(s: seq<T>, top: nat, choices: seq<nat>, c: nat)
    requires top < |s| && ValidChoices(top, choices + [c])
    ensures ValidChoices(top, choices) && c <= top - |choices|
    ensures Shuffled(s, top, choices + [c]) == Swap(Shuffled(s, top, choices), top - |choices|, c)
    decreases |choices|
  {
    hide Swap;
    assert (choices + [c])[|choices|] == c;
    assert forall k :: 0 <= k < |choices| ==> (choices + [c])[k] == choices[k];
    if choices == [] {
      assert (choices + [c])[1..] == [];
    } else {
      assert (choices + [c])[1..] == choices[1..] + [c];
      ShuffledOneMore(Swap(s, top, choices[0]), top - 1, choices[1..], c);
    }
  }

  predicate Distinct<T(==)>(s: seq<T>) {
    forall i, j :: 0 <= i < j < |s| ==> s[i] != s[j]
  }

  /** Different choices give different permutations ... */
  lemma {:induction false} ShuffleIsInjective<T>(s: seq<T>, top: nat, c1: seq<nat>, c2: seq<nat>)
    requires Distinct(s) && top < |s|
    requires ValidChoices(top, c1) && ValidChoices(top, c2) && |c1| == top == |c2|
    ensures Shuffled(s, top, c1) == Shuffled(s, top, c2) <==> c1 == c2
    decreases top
  {
    if top > 0 && Shuffled(s, top, c1) == Shuffled(s, top, c2) {
      var t1, t2 := Swap(s, top, c1[0]), Swap(s, top, c2[0]);
      ShuffledKeepsAbove(t1, top - 1, c1[1..]);
      ShuffledKeepsAbove(t2, top - 1, c2[1..]);
      assert s[c1[0]] == t1[top] == t2[top] == s[c2[0]];
      assert c1[0] == c2[0];
      ShuffleIsInjective(t1, top - 1, c1[1..], c2[1..]);
      assert c1 == [c1[0]] + c1[1..] && c2 == [c2[0]] + c2[1..];
    }
  }

  lemma PrefixesAgree<T>(s: seq<T>, t: seq<T>, rest: seq<T>)
    requires multiset(s + rest) == multiset(t + rest)
    ensures multiset(s) == multiset(t)
  {
    assert multiset(s + rest) == multiset(s) + multiset(rest);
    assert multiset(t + rest) == multiset(t) + multiset(rest);
    assert multiset(s) == multiset(s + rest) - multiset(rest);
    assert multiset(t) == multiset(t + rest) - multiset(rest);
  }

  /** ... and every permutation is reached: with one choice per position the shuffle is a bijection
      between choices and permutations. */
  lemma {:induction false} ShuffleReaches<T>(s: seq<T>, t: seq<T>, top: nat) returns (choices: seq<nat>)
    requires top < |s| == |t|
    requires multiset(s) == multiset(t) && s[top + 1..] == t[top + 1..]
    ensures ValidChoices(top, choices) && |choices| == top && Shuffled(s, top, choices) == t
    decreases top
  {
    if top == 0 {
      OnlyElement(s, t);
      choices := [];
    } else {
      var c := ChoiceFor(s, t, top);
      var swapped := Swap(s, top, c);
      SwapKeepsContents(s, top, c);
      assert swapped[top..] == t[top..];
      var rest := ShuffleReaches(swapped, t, top - 1);
      choices := [c] + rest;
      assert choices[1..] == rest;
      ChoicesExtend(top, c, rest);
    }
  }

  lemma ChoicesExtend(top: nat, c: nat, rest: seq<nat>)
    requires 0 < top && c <= top && ValidChoices(top - 1, rest)
    ensures ValidChoices(top, [c] + rest)
  {
  }

  lemma ChoiceFor<T>(s: seq<T>, t: seq<T>, top: nat) returns (c: nat)
    requires top < |s| == |t|
    requires multiset(s) == multiset(t) && s[top + 1..] == t[top + 1..]
    ensures c <= top && s[c] == t[top]
  {
    assert s == s[..top + 1] + s[top + 1..] && t == t[..top + 1] + t[top + 1..];
    PrefixesAgree(s[..top + 1], t[..top + 1], t[top + 1..]);
    assert t[..top + 1][top] == t[top];
    assert t[top] in multiset(t[..top + 1]);
    assert t[top] in s[..top + 1];
    c :| c <= top && s[c] == t[top];
  }

  lemma OnlyElement<T>(s: seq<T>, t: seq<T>)
    requires 0 < |s| == |t|
    requires multiset(s) == multiset(t) && s[1..] == t[1..]
    ensures s == t
  {
    var c := ChoiceFor(s, t, 0);
    assert s == [s[0]] + s[1..] && t == [t[0]] + t[1..];
  }

  /** One draw below each of n, n - 1, ..., 2. */
  function ShuffleBounds(n: nat): (r: seq<nat>)
    requires 0 < n
    ensures |r| == n - 1 && forall k :: 0 <= k < n - 1 ==> r[k] == n - k
  {
    seq(n - 1, k requires 0 <= k < n - 1 => n - k)
  }

  /** The buffer holds the shuffle by the draws from `start`, which led to `pos`; positions below `index`
      are still to be filled. */
  ghost predicate ShuffledSoFar(tape: seq<Draw>, start: nat, pos: nat, s: seq<Octet>, now: seq<Octet>, index: nat)
    requires start <= |tape| && 0 < |s| <= U32_MAX
  {
    && 1 <= index <= |s|
    && match Indexes(tape, start, ShuffleBounds(|s|)[..|s| - index])
       case None => false
       case Some((choices, mid)) =>
         mid == pos && ValidChoices(|s| - 1, choices) && |choices| == |s| - index && now == Shuffled(s, |s| - 1, choices)
  }

  lemma ShuffleOneMore(tape: seq<Draw>, start: nat, pos: nat, s: seq<Octet>, now: seq<Octet>, index: nat)
    requires start <= |tape| && 0 < |s| <= U32_MAX && pos <= |tape| && 1 < index && |now| == |s|
    requires ShuffledSoFar(tape, start, pos, s, now, index)
    ensures match NextIndex(tape, pos, index)
            case None => Indexes(tape, start, ShuffleBounds(|s|)).None?
            case Some((c, end)) => ShuffledSoFar(tape, start, end, s, Swap(now, index - 1, c), index - 1)
  {
    hide Indexes, NextIndex, Shuffled, Swap, ValidChoices, ValidIndexes;
    var bounds, k := ShuffleBounds(|s|), |s| - index;
    assert bounds[k] == index;
    var (choices, _) := Indexes(tape, start, bounds[..k]).value;
    IndexesOneMore(tape, start, bounds, k, choices, pos);
    hide ShuffleBounds;
    match NextIndex(tape, pos, index) {
      case None =>
      case Some((c, end)) =>
        ShuffleTakesChoice(s, choices, c);
    }
  }

  lemma ShuffleTakesChoice(s: seq<Octet>, choices: seq<nat>, c: nat)
    requires 0 < |s| && ValidChoices(|s| - 1, choices) && |choices| < |s| - 1 && c < |s| - |choices|
    ensures ValidChoices(|s| - 1, choices + [c])
    ensures Swap(Shuffled(s, |s| - 1, choices), |s| - 1 - |choices|, c) == Shuffled(s, |s| - 1, choices + [c])
  {
    hide Shuffled, Swap, ValidChoices;
    ChoicesSnoc(|s| - 1, choices, c);
    ShuffledOneMore(s, |s| - 1, choices, c);
  }

  lemma ChoicesSnoc(top: nat, choices: seq<nat>, c: nat)
    requires ValidChoices(top, choices) && |choices| < top && c <= top - |choices|
    ensures ValidChoices(top, choices + [c])
  {
  }

  lemma AllShuffled(tape: seq<Draw>, start: nat, pos: nat, s: seq<Octet>, now: seq<Octet>)
    requires start <= |tape| && 0 < |s| <= U32_MAX && ShuffledSoFar(tape, start, pos, s, now, 1)
    ensures Indexes(tape, start, ShuffleBounds(|s|)).Some?
    ensures var (choices, end) := Indexes(tape, start, ShuffleBounds(|s|)).value;
      end == pos && ValidChoices(|s| - 1, choices) && now == Shuffled(s, |s| - 1, choices)
  {
    hide Indexes, Shuffled;
    assert ShuffleBounds(|s|)[..|s| - 1] == ShuffleBounds(|s|);
  }

  lemma NothingShuffled(tape: seq<Draw>, start: nat, s: seq<Octet>)
    requires start <= |tape| && 0 < |s| <= U32_MAX
    ensures ShuffledSoFar(tape, start, start, s, s, |s|)
  {
    assert ShuffleBounds(|s|)[..0] == [];
  }

  /** The buffer ends as the shuffle of the indexes drawn for its bounds. */
  method Shuffle(password: array<Octet>, random: RandomSource) returns (r: Result<()>)
    requires random.pos <= |random.tape| && 0 < password.Length <= U32_MAX
    modifies password, random`pos
    ensures old(random.pos) <= random.pos <= |random.tape|
    ensures var n := password.Length;
      match Indexes(random.tape, old(random.pos), ShuffleBounds(n))
      case None => r.Err? && random.pos == |random.tape|
      case Some((indexes, end)) =>
        && r.Ok? && random.pos == end
        && ValidChoices(n - 1, indexes) && password[..] == Shuffled(old(password[..]), n - 1, indexes)
  {
    ghost var s, start := password[..], random.pos;
    NothingShuffled(random.tape, start, s);
    hide ShuffledSoFar, Indexes, NextIndex, Shuffled;
    var index := password.Length;
    while index > 1
      invariant 1 <= index <= password.Length
      invariant start <= random.pos <= |random.tape|
      invariant ShuffledSoFar(random.tape, start, random.pos, s, password[..], index)
    {
      ghost var now := password[..];
      ShuffleOneMore(random.tape, start, random.pos, s, now, index);
      index := index - 1;
      var swapIndex :- random.RandomIndex(index + 1);
      password[index], password[swapIndex] := password[swapIndex], password[index];
      assert password[..] == Swap(now, index, swapIndex);
    }
    AllShuffled(random.tape, start, random.pos, s, password[..]);
    r := Ok(());
  }

  /** One bound more: the next accepted draw, or no indexes at all. */
  lemma IndexesOneMore(tape: seq<Draw>, start: nat, bounds: seq<nat>, n: nat, indexes: seq<nat>, pos: nat)
    requires start <= |tape| && n < |bounds| && forall k :: 0 <= k < |bounds| ==> SupportedBound(bounds[k])
    requires Indexes(tape, start, bounds[..n]) == Some((indexes, pos))
    ensures match NextIndex(tape, pos, bounds[n])
            case None => Indexes(tape, start, bounds).None?
            case Some((index, end)) => Indexes(tape, start, bounds[..n + 1]) == Some((indexes + [index], end))
  {
    hide NextIndex;
    assert bounds[..n + 1][..n] == bounds[..n];
    IndexesStop(tape, start, bounds, n + 1);
  }

  /** Once the source has failed, the longer list of bounds has failed too. */
  lemma {:induction false} IndexesStop(tape: seq<Draw>, pos: nat, bounds: seq<nat>, n: nat)
    requires pos <= |tape| && n <= |bounds| && forall k :: 0 <= k < |bounds| ==> SupportedBound(bounds[k])
    ensures Indexes(tape, pos, bounds[..n]).None? ==> Indexes(tape, pos, bounds).None?
    decreases |bounds|
  {
    if n < |bounds| {
      IndexesStop(tape, pos, bounds[..|bounds| - 1], n);
      assert bounds[..|bounds| - 1][..n] == bounds[..n];
    } else {
      assert bounds[..n] == bounds;
    }
  }

  // ---- the password --------------------------------------------------------------------------------------------

  /** The first four characters come from one class each. */
  function Charset(position: nat): (r: seq<Octet>)
    ensures SupportedBound(|r|)
  {
    match position
    case 0 => LowercaseCharset()
    case 1 => UppercaseCharset()
    case 2 => DigitCharset()
    case 3 => SymbolCharset()
    case _ => CombinedCharset()
  }

  function PickBounds(n: nat): (r: seq<nat>)
    ensures |r| == n && forall k :: 0 <= k < n ==> r[k] == |Charset(k)|
  {
    seq(n, k requires 0 <= k < n => |Charset(k)|)
  }

  function Picked(picks: seq<nat>): (r: seq<Octet>)
    requires ValidIndexes(picks, PickBounds(|picks|))
    ensures |r| == |picks| && forall k :: 0 <= k < |picks| ==> r[k] == Charset(k)[picks[k]]
  {
    seq(|picks|, k requires 0 <= k < |picks| => Charset(k)[picks[k]])
  }

  /** The password a tape gives from `pos`, and the position behind the last draw. */
  function Generated(tape: seq<Draw>, pos: nat, n: nat): Option<(seq<Octet>, nat)>
    requires pos <= |tape| && 0 < n <= U32_MAX
  {
    match Indexes(tape, pos, PickBounds(n))
    case None => None
    case Some((picks, mid)) =>
      match Indexes(tape, mid, ShuffleBounds(n))
      case None => None
      case Some((choices, end)) => Some((Shuffled(Picked(picks), n - 1, choices), end))
  }

  lemma CharsetClasses()
    ensures forall c :: c in LowercaseCharset() ==> IsLower(c)
    ensures forall c :: c in UppercaseCharset() ==> IsUpper(c)
    ensures forall c :: c in DigitCharset() ==> IsDigit(c)
    ensures forall c :: c in SymbolCharset() ==> IsSymbol(c)
  {
    hide LowercaseCharset, UppercaseCharset, DigitCharset, SymbolCharset, CombinedCharset;
  }

  /** Whatever is picked and however it is shuffled, the final policy check passes. */
  lemma GeneratedMeetsPolicy(picks: seq<nat>, choices: seq<nat>)
    requires MIN_PASSWORD_LENGTH <= |picks| <= MAX_PASSWORD_LENGTH
    requires ValidIndexes(picks, PickBounds(|picks|)) && ValidChoices(|picks| - 1, choices)
    ensures PolicyOk(Shuffled(Picked(picks), |picks| - 1, choices))
  {
    hide PolicyOk;
    var p := Picked(picks);
    PickedMeetsPolicy(picks);
    ShuffledKeepsContents(p, |p| - 1, choices);
    PolicyIgnoresOrder(p, Shuffled(p, |p| - 1, choices));
  }

  lemma PickedMeetsPolicy(picks: seq<nat>)
    requires MIN_PASSWORD_LENGTH <= |picks| <= MAX_PASSWORD_LENGTH
    requires ValidIndexes(picks, PickBounds(|picks|))
    ensures PolicyOk(Picked(picks))
  {
    hide LowercaseCharset, UppercaseCharset, DigitCharset, SymbolCharset, CombinedCharset;
    CharsetClasses();
    var p := Picked(picks);
    assert p[0] in LowercaseCharset() && p[1] in UppercaseCharset() && p[2] in DigitCharset() && p[3] in SymbolCharset();
    forall c | c in p ensures !IsBlankOctet(c) {
      var k :| 0 <= k < |p| && p[k] == c;
      assert c in Charset(k);
      assert c in CombinedCharset();
    }
  }

  /** The characters so far are those of the draws from `start`, which led to `pos`. */
  ghost predicate PickedSoFar(tape: seq<Draw>, start: nat, pos: nat, n: nat, password: seq<Octet>)
    requires start <= |tape|
  {
    && |password| <= n
    && match Indexes(tape, start, PickBounds(n)[..|password|])
       case None => false
       case Some((picks, mid)) =>
         mid == pos && ValidIndexes(picks, PickBounds(|picks|)) && |picks| == |password| && password == Picked(picks)
  }

  lemma PickOneMore(tape: seq<Draw>, start: nat, pos: nat, n: nat, password: seq<Octet>)
    requires start <= |tape| && |password| < n && pos <= |tape|
    requires PickedSoFar(tape, start, pos, n, password)
    ensures match NextIndex(tape, pos, |Charset(|password|)|)
            case None => Indexes(tape, start, PickBounds(n)).None?
            case Some((index, end)) => PickedSoFar(tape, start, end, n, password + [Charset(|password|)[index]])
  {
    hide LowercaseCharset, UppercaseCharset, DigitCharset, SymbolCharset, CombinedCharset;
    var k, bounds := |password|, PickBounds(n);
    var (picks, _) := Indexes(tape, start, bounds[..k]).value;
    IndexesOneMore(tape, start, bounds, k, picks, pos);
    hide Indexes, NextIndex, Charset, Picked, PickBounds, ValidIndexes;
    match NextIndex(tape, pos, |Charset(k)|) {
      case None =>
      case Some((index, end)) =>
        PickedSnoc(picks, index);
    }
  }

  lemma PickedSnoc(picks: seq<nat>, index: nat)
    requires ValidIndexes(picks, PickBounds(|picks|)) && index < |Charset(|picks|)|
    ensures ValidIndexes(picks + [index], PickBounds(|picks + [index]|))
    ensures Picked(picks + [index]) == Picked(picks) + [Charset(|picks|)[index]]
  {
    hide Charset;
    assert Picked(picks + [index]) == Picked(picks) + [Charset(|picks|)[index]];
  }

  method PushSample(charset: seq<Octet>, password: seq<Octet>, random: RandomSource, ghost start: nat, ghost n: nat)
    returns (r: Result<seq<Octet>>)
    requires start <= random.pos <= |random.tape| && |password| < n && charset == Charset(|password|)
    requires PickedSoFar(random.tape, start, random.pos, n, password)
    modifies random`pos
    ensures old(random.pos) <= random.pos <= |random.tape|
    ensures r.Err? ==> random.pos == |random.tape| && Indexes(random.tape, start, PickBounds(n)).None?
    ensures r.Ok? ==> |r.value| == |password| + 1 && PickedSoFar(random.tape, start, random.pos, n, r.value)
  {
    PickOneMore(random.tape, start, random.pos, n, password);
    hide PickedSoFar, Indexes, NextIndex;
    var c :- random.SampleFromCharset(charset);
    r := Ok(password + [c]);
  }

  /** One character of each class, then any. */
  method PickCharacters(n: nat, random: RandomSource) returns (r: Result<seq<Octet>>)
    requires random.pos <= |random.tape| && 4 <= n
    modifies random`pos
    ensures old(random.pos) <= random.pos <= |random.tape|
    ensures match Indexes(random.tape, old(random.pos), PickBounds(n))
            case None => r.Err? && random.pos == |random.tape|
            case Some((picks, mid)) => r == Ok(Picked(picks)) && random.pos == mid
  {
    ghost var start := random.pos;
    assert PickBounds(n)[..0] == [];
    assert Picked([]) == [];
    assert PickedSoFar(random.tape, start, start, n, []);
    hide Indexes, NextIndex, PickedSoFar;
    var password: seq<Octet> :- PushSample(LowercaseCharset(), [], random, start, n);
    password :- PushSample(UppercaseCharset(), password, random, start, n);
    password :- PushSample(DigitCharset(), password, random, start, n);
    password :- PushSample(SymbolCharset(), password, random, start, n);
    while |password| < n
      invariant 4 <= |password| <= n
      invariant start <= random.pos <= |random.tape|
      invariant PickedSoFar(random.tape, start, random.pos, n, password)
      decreases n - |password|
    {
      password :- PushSample(CombinedCharset(), password, random, start, n);
    }
    AllPicked(random.tape, start, random.pos, n, password);
    r := Ok(password);
  }

  lemma AllPicked(tape: seq<Draw>, start: nat, pos: nat, n: nat, password: seq<Octet>)
    requires start <= |tape| && |password| == n && PickedSoFar(tape, start, pos, n, password)
    ensures Indexes(tape, start, PickBounds(n)).Some?
    ensures Indexes(tape, start, PickBounds(n)).value.1 == pos
    ensures password == Picked(Indexes(tape, start, PickBounds(n)).value.0)
  {
    hide Indexes;
    assert PickBounds(n)[..n] == PickBounds(n);
  }

  method ShuffledCopy(password: seq<Octet>, random: RandomSource) returns (r: Result<seq<Octet>>)
    requires random.pos <= |random.tape| && 0 < |password| <= U32_MAX
    modifies random`pos
    ensures old(random.pos) <= random.pos <= |random.tape|
    ensures match Indexes(random.tape, old(random.pos), ShuffleBounds(|password|))
            case None => r.Err? && random.pos == |random.tape|
            case Some((choices, end)) =>
              && ValidChoices(|password| - 1, choices) && random.pos == end
              && r == Ok(Shuffled(password, |password| - 1, choices))
  {
    var buffer := new Octet[|password|];
    forall i | 0 <= i < |password| {
      buffer[i] := password[i];
    }
    assert buffer[..] == password;
    hide Indexes, Shuffled, ShuffleBounds, ValidChoices;
    var _ :- Shuffle(buffer, random);
    r := Ok(buffer[..]);
  }

  /** What a tape gives meets the policy. */
  lemma GeneratedFrom(tape: seq<Draw>, pos: nat, n: nat)
    requires pos <= |tape| && MIN_PASSWORD_LENGTH <= n <= MAX_PASSWORD_LENGTH
    ensures match Indexes(tape, pos, PickBounds(n))
            case None => Generated(tape, pos, n) == None
            case Some((picks, mid)) =>
              && ValidIndexes(picks, PickBounds(|picks|)) && |Picked(picks)| == n
              && match Indexes(tape, mid, ShuffleBounds(n))
                 case None => Generated(tape, pos, n) == None
                 case Some((choices, end)) =>
                   && ValidChoices(n - 1, choices)
                   && Generated(tape, pos, n) == Some((Shuffled(Picked(picks), n - 1, choices), end))
                   && PolicyOk(Shuffled(Picked(picks), n - 1, choices))
  {
    hide Indexes, NextIndex, Shuffled, PolicyOk, Charset, LowercaseCharset, UppercaseCharset, DigitCharset, SymbolCharset,
      CombinedCharset;
    match Indexes(tape, pos, PickBounds(n)) {
      case None =>
      case Some((picks, mid)) =>
        match Indexes(tape, mid, ShuffleBounds(n)) {
          case None =>
          case Some((choices, _)) =>
            ChoicesAreIndexes(n, choices);
            GeneratedMeetsPolicy(picks, choices);
        }
    }
  }

  /** Fails only for a length outside the policy or when the random source fails; otherwise the password
      is the one its draws describe, and it meets the policy. */
  method GeneratePassword(length: nat, random: RandomSource) returns (r: Result<seq<Octet>>)
    requires random.pos <= |random.tape|
    modifies random`pos
    ensures var n := if length == 0 then 24 else length;
      if !(16 <= n <= 128) then r == Err(Validation) && random.pos == old(random.pos)
      else
        match Generated(random.tape, old(random.pos), n)
        case None => r.Err? && random.pos == |random.tape|
        case Some((password, end)) => r == Ok(password) && random.pos == end && PolicyOk(password)
  {
    var n := if length == 0 then DEFAULT_GENERATED_PASSWORD_LENGTH else length;
    if n < MIN_PASSWORD_LENGTH || n > MAX_PASSWORD_LENGTH {
      return Err(Validation);
    }
    GeneratedFrom(random.tape, random.pos, n);
    hide Indexes, NextIndex, Shuffled, Generated, PolicyOk, ShuffleBounds, PickBounds, Picked, ValidChoices, ValidIndexes;
    var password :- PickCharacters(n, random);
    var shuffled :- ShuffledCopy(password, random);
    r := match ValidatePasswordPolicy(shuffled)
         case Ok(_) => Ok(shuffled)
         case Err(error) => Err(error);
  }

  // ---- what the generator can produce ------------------------------------------------------------------------

  ghost predicate Producible(p: seq<Octet>) {
    && MIN_PASSWORD_LENGTH <= |p| <= MAX_PASSWORD_LENGTH
    && exists tape: seq<Draw> :: Generated(tape, 0, |p|) == Some((p, |tape|))
  }

  /** Draws below the bounds are accepted as they are. */
  lemma {:induction false} SmallDrawsAreIndexes(tape: seq<Draw>, pos: nat, bounds: seq<nat>, indexes: seq<nat>)
    requires pos + |bounds| <= |tape| && ValidIndexes(indexes, bounds)
    requires forall k :: 0 <= k < |bounds| ==> 0 < bounds[k] <= 0x8000_0000
    requires forall k :: 0 <= k < |bounds| ==> tape[pos + k] == indexes[k]
    ensures Indexes(tape, pos, bounds) == Some((indexes, pos + |bounds|))
    decreases |bounds|
  {
    if bounds == [] {
    } else {
      var n := |bounds| - 1;
      SmallDrawsAreIndexes(tape, pos, bounds[..n], indexes[..n]);
      SamplingIsUniform(indexes[n], bounds[n]);
      QuotientAndRemainder(indexes[n], 0, indexes[n], bounds[n]);
      assert indexes == indexes[..n] + [indexes[n]];
    }
  }

  /** The generator reaches exactly the passwords over its alphabet that have one character of each
      class and an allowed length. */
  lemma ProducibleIff(p: seq<Octet>)
    ensures Producible(p) <==> PolicyOk(p) && forall c :: c in p ==> c in CombinedCharset()
  {
    hide LowercaseCharset, UppercaseCharset, DigitCharset, SymbolCharset, CombinedCharset;
    hide PolicyOk, Generated;
    if Producible(p) {
      var tape: seq<Draw> :| Generated(tape, 0, |p|) == Some((p, |tape|));
      ProducedIsAllowed(tape, p);
    }
    if PolicyOk(p) && forall c :: c in p ==> c in CombinedCharset() {
      var tape := TapeFor(p);
      AllowedLength(p);
    }
  }

  lemma AllowedLength(p: seq<Octet>)
    requires PolicyOk(p)
    ensures MIN_PASSWORD_LENGTH <= |p| <= MAX_PASSWORD_LENGTH
  {
  }

  lemma ProducedIsAllowed(tape: seq<Draw>, p: seq<Octet>)
    requires MIN_PASSWORD_LENGTH <= |p| <= MAX_PASSWORD_LENGTH
    requires Generated(tape, 0, |p|) == Some((p, |tape|))
    ensures PolicyOk(p) && forall c :: c in p ==> c in CombinedCharset()
  {
    hide LowercaseCharset, UppercaseCharset, DigitCharset, SymbolCharset, CombinedCharset;
    hide PolicyOk, Indexes, Shuffled;
    var n := |p|;
    var (picks, mid) := Indexes(tape, 0, PickBounds(n)).value;
    var choices := Indexes(tape, mid, ShuffleBounds(n)).value.0;
    ChoicesAreIndexes(n, choices);
    GeneratedMeetsPolicy(picks, choices);
    ShuffledKeepsContents(Picked(picks), n - 1, choices);
    forall c | c in p ensures c in CombinedCharset() {
      assert c in multiset(p);
      assert c in Picked(picks);
      var k :| 0 <= k < n && Picked(picks)[k] == c;
      assert c in Charset(k);
    }
  }

  function Without<T>(s: seq<T>, i: nat): (r: seq<T>)
    requires i < |s|
    ensures multiset(s) == multiset(r) + multiset([s[i]]) && |r| == |s| - 1
  {
    assert s == s[..i] + ([s[i]] + s[i + 1..]);
    s[..i] + s[i + 1..]
  }

  lemma Member<T>(s: seq<T>, c: T) returns (i: nat)
    requires c in s
    ensures i < |s| && s[i] == c
  {
    i :| i < |s| && s[i] == c;
  }

  /** Still there after another character was taken out. */
  lemma StillIn(s: seq<Octet>, i: nat, c: Octet)
    requires i < |s| && c in s && c != s[i]
    ensures c in Without(s, i)
  {
    assert c in multiset(s);
    assert multiset(s)[c] == multiset(Without(s, i))[c] + multiset([s[i]])[c];
  }

  /** Takes one occurrence of `c` out. */
  lemma TakeOut(p: seq<Octet>, c: Octet) returns (rest: seq<Octet>)
    requires c in p
    ensures |rest| == |p| - 1 && multiset(p) == multiset(rest) + multiset([c])
    ensures forall d :: d in p && d != c ==> d in rest
  {
    var i := Member(p, c);
    rest := Without(p, i);
    forall d | d in p && d != c ensures d in rest {
      StillIn(p, i, d);
    }
  }

  /** The characters in an order in which they could have been picked. */
  lemma PickingOrder(p: seq<Octet>) returns (source: seq<Octet>)
    requires PolicyOk(p) && forall c :: c in p ==> c in CombinedCharset()
    ensures |source| == |p| && multiset(source) == multiset(p)
    ensures forall k :: 0 <= k < |p| ==> source[k] in Charset(k)
  {
    var a, b, c, d, rest := FourClasses(p);
    source := FourAndRest(a, b, c, d, rest);
    hide LowercaseCharset, UppercaseCharset, DigitCharset, SymbolCharset, CombinedCharset, PolicyOk, Charset;
    assert |source| == |p|;
    forall k | 0 <= k < |p| ensures source[k] in Charset(k) {
      SameMembers(p, source, k);
      FirstFour(k, a, b, c, d, source[k]);
    }
  }

  lemma FirstFour(k: nat, a: Octet, b: Octet, c: Octet, d: Octet, x: Octet)
    requires a in LowercaseCharset() && b in UppercaseCharset() && c in DigitCharset() && d in SymbolCharset()
    requires k == 0 ==> x == a
    requires k == 1 ==> x == b
    requires k == 2 ==> x == c
    requires k == 3 ==> x == d
    requires x in CombinedCharset()
    ensures x in Charset(k)
  {
    hide LowercaseCharset, UppercaseCharset, DigitCharset, SymbolCharset, CombinedCharset;
  }

  lemma FourAndRest<T>(a: T, b: T, c: T, d: T, rest: seq<T>) returns (s: seq<T>)
    ensures multiset(s) == multiset([a]) + multiset([b]) + multiset([c]) + multiset([d]) + multiset(rest)
    ensures |s| == |rest| + 4 && s[0] == a && s[1] == b && s[2] == c && s[3] == d
  {
    var s3 := [d] + rest;
    var s2 := [c] + s3;
    var s1 := [b] + s2;
    s := [a] + s1;
    InFront(d, rest);
    InFront(c, s3);
    InFront(b, s2);
    InFront(a, s1);
    SumsAgree(multiset([a]), multiset([b]), multiset([c]), multiset([d]), multiset(rest));
  }

  lemma SumsAgree<T>(a: multiset<T>, b: multiset<T>, c: multiset<T>, d: multiset<T>, e: multiset<T>)
    ensures a + b + c + d + e == a + (b + (c + (d + e)))
  {
  }

  lemma InFront<T>(x: T, s: seq<T>)
    ensures multiset([x] + s) == multiset([x]) + multiset(s)
  {
  }

  lemma SameMembers(p: seq<Octet>, q: seq<Octet>, k: nat)
    requires multiset(p) == multiset(q) && k < |q|
    ensures q[k] in p
  {
    assert q[k] in multiset(q);
    assert q[k] in multiset(p);
  }

  lemma FourClasses(p: seq<Octet>) returns (a: Octet, b: Octet, c: Octet, d: Octet, rest: seq<Octet>)
    requires PolicyOk(p) && forall x :: x in p ==> x in CombinedCharset()
    ensures a in LowercaseCharset() && b in UppercaseCharset() && c in DigitCharset() && d in SymbolCharset()
    ensures |rest| == |p| - 4
    ensures multiset(p) == multiset([a]) + multiset([b]) + multiset([c]) + multiset([d]) + multiset(rest)
  {
    CharsetClasses();
    hide LowercaseCharset, UppercaseCharset, DigitCharset, SymbolCharset, CombinedCharset, Charset;
    var ia: nat :| ia < |p| && IsLower(p[ia]);
    var ib: nat :| ib < |p| && IsUpper(p[ib]);
    var ic: nat :| ic < |p| && IsDigit(p[ic]);
    var id: nat :| id < |p| && IsSymbol(p[id]);
    a, b, c, d := p[ia], p[ib], p[ic], p[id];
    var p1 := TakeOut(p, a);
    var p2 := TakeOut(p1, b);
    var p3 := TakeOut(p2, c);
    rest := TakeOut(p3, d);
  }

  lemma PicksFor(source: seq<Octet>) returns (picks: seq<nat>)
    requires forall k :: 0 <= k < |source| ==> source[k] in Charset(k)
    ensures |picks| == |source| && ValidIndexes(picks, PickBounds(|source|)) && Picked(picks) == source
  {
    hide LowercaseCharset, UppercaseCharset, DigitCharset, SymbolCharset, CombinedCharset, Charset;
    picks := [];
    while |picks| < |source|
      invariant |picks| <= |source|
      invariant forall k :: 0 <= k < |picks| ==> picks[k] < |Charset(k)| && Charset(k)[picks[k]] == source[k]
    {
      var index := Member(Charset(|picks|), source[|picks|]);
      picks := picks + [index];
    }
  }

  lemma ChoicesAreIndexes(n: nat, choices: seq<nat>)
    requires 0 < n && |choices| == n - 1
    ensures ValidIndexes(choices, ShuffleBounds(n)) <==> ValidChoices(n - 1, choices)
  {
    forall k | 0 <= k < n - 1 ensures choices[k] < ShuffleBounds(n)[k] <==> choices[k] <= n - 1 - k {
    }
  }

  lemma SmallBounds(n: nat)
    requires 0 < n <= MAX_PASSWORD_LENGTH
    ensures forall k :: 0 <= k < |PickBounds(n)| ==> 0 < PickBounds(n)[k] <= 0x8000_0000
    ensures forall k :: 0 <= k < |ShuffleBounds(n)| ==> 0 < ShuffleBounds(n)[k] <= 0x8000_0000
  {
    hide LowercaseCharset, UppercaseCharset, DigitCharset, SymbolCharset, CombinedCharset;
    forall k | 0 <= k < n ensures |Charset(k)| <= 81 {
    }
  }

  lemma TapeFor(p: seq<Octet>) returns (tape: seq<Draw>)
    requires PolicyOk(p) && forall c :: c in p ==> c in CombinedCharset()
    ensures Generated(tape, 0, |p|) == Some((p, |tape|))
  {
    AllowedLength(p);
    var n := |p|;
    var source := PickingOrder(p);
    hide LowercaseCharset, UppercaseCharset, DigitCharset, SymbolCharset, CombinedCharset, PolicyOk, Charset, Shuffled, Indexes;
    var picks := PicksFor(source);
    var choices := ShuffleReaches(source, p, n - 1);
    ChoicesAreIndexes(n, choices);
    SmallBounds(n);
    tape := TapeOf(n, picks, choices);
  }

  lemma TapeOf(n: nat, picks: seq<nat>, choices: seq<nat>) returns (tape: seq<Draw>)
    requires 0 < n <= MAX_PASSWORD_LENGTH
    requires ValidIndexes(picks, PickBounds(n)) && ValidIndexes(choices, ShuffleBounds(n))
    ensures Indexes(tape, 0, PickBounds(n)) == Some((picks, n))
    ensures Indexes(tape, n, ShuffleBounds(n)) == Some((choices, |tape|))
  {
    hide LowercaseCharset, UppercaseCharset, DigitCharset, SymbolCharset, CombinedCharset, Charset, Indexes;
    SmallBounds(n);
    assert forall k :: 0 <= k < n ==> picks[k] < PickBounds(n)[k];
    assert forall k :: 0 <= k < n - 1 ==> choices[k] < ShuffleBounds(n)[k];
    tape := picks + choices;
    SmallDrawsAreIndexes(tape, 0, PickBounds(n), picks);
    SmallDrawsAreIndexes(tape, n, ShuffleBounds(n), choices);
  }
}
