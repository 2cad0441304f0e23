/**
 * The reader of the reactor's JSON codec: one index moving through the text.
 * An index here counts from 0. Every method is run on a text that some `Text`
 * wrote, which its ghost arguments name; on an unterminated string the loop of
 * ReadString has no end.
 */
module LuaJsonReader {
  import opened Decimals
  import opened LittleEndian
  import opened JsonText

  predicate Is(s: bytes, i: nat, b: byte) { i < |s| && s[i] == b }

  predicate Has(s: bytes, i: nat, w: bytes) { i + |w| <= |s| && s[i..i + |w|] == w }

  // ----- runs of bytes -----

  /** A run of bytes of one kind that cannot go on ends where the text says it does. */
  lemma RunEnds(s: bytes, i: nat, j: nat, kind: byte -> bool, run: bytes, rest: bytes)
    requires i <= j <= |s| && s[i..] == run + rest
    requires (forall k :: i <= k < j ==> kind(s[k])) && (j < |s| ==> !kind(s[j]))
    requires (forall b :: b in run ==> kind(b)) && (rest == [] || !kind(rest[0]))
    ensures j == i + |run| && s[j..] == rest
  {
    assert forall k :: 0 <= k < |run| ==> s[i..][k] == run[k] && run[k] in run;
    assert forall k :: i <= k < i + |run| ==> s[k] == s[i..][k - i] && kind(s[k]);
    assert rest != [] ==> s[i + |run|] == s[i..][|run|] == rest[0];
    assert s[i + |run|..] == s[i..][|run|..];
  }

  /** `ws` */
  method SkipSpace(s: bytes, i: nat) returns (j: nat)
    requires i <= |s|
    ensures i <= j <= |s| && forall k :: i <= k < j ==> IsSpace(s[k])
    ensures j < |s| ==> !IsSpace(s[j])
  {
    j := i;
    while j < |s| && IsSpace(s[j])
      invariant i <= j <= |s| && forall k :: i <= k < j ==> IsSpace(s[k])
    {
      j := j + 1;
    }
  }

  predicate OffSpace(rest: bytes) { rest == [] || !IsSpace(rest[0]) }

  /** Skips a gap that is known to be there. */
  method SkipGap(s: bytes, i: nat, ghost gap: bytes, ghost rest: bytes) returns (j: nat)
    requires i <= |s| && s[i..] == gap + rest && Gap(gap) && OffSpace(rest)
    ensures j <= |s| && s[j..] == rest
  {
    j := SkipSpace(s, i);
    RunEnds(s, i, j, IsSpace, gap, rest);
  }

  lemma Advance(s: bytes, i: nat, w: bytes, rest: bytes)
    requires i <= |s| && s[i..] == w + rest
    ensures i + |w| <= |s| && s[i + |w|..] == rest && s[i..i + |w|] == w
  {
    assert s[i + |w|..] == s[i..][|w|..];
    assert s[i..i + |w|] == s[i..][..|w|];
  }

  // ----- numbers -----

  predicate Stops(rest: bytes) { rest == [] || !InNumber(rest[0]) }

  /** `%d*` */
  method SkipDigits(s: bytes, i: nat) returns (j: nat)
    requires i <= |s|
    ensures i <= j <= |s| && forall k :: i <= k < j ==> IsDigit(s[k])
    ensures j < |s| ==> !IsDigit(s[j])
  {
    j := i;
    while j < |s| && IsDigit(s[j])
      invariant i <= j <= |s| && forall k :: i <= k < j ==> IsDigit(s[k])
    {
      j := j + 1;
    }
  }

  /** A class of the pattern that may match one byte or none. */
  method SkipOne(s: bytes, i: nat, kind: set<byte>) returns (j: nat)
    requires i <= |s|
    ensures j == if i < |s| && s[i] in kind then i + 1 else i
  {
    j := if i < |s| && s[i] in kind then i + 1 else i;
  }

  /** The part `%.?%d*[eE]?[-+]?%d*` of the number pattern. */
  method SkipFraction(s: bytes, i: nat) returns (j: nat)
    requires i <= |s|
    ensures i <= j <= |s| && (i < |s| && !InNumber(s[i]) ==> j == i)
  {
    j := SkipOne(s, i, {46});
    j := SkipDigits(s, j);
    j := SkipOne(s, j, {101, 69});
    j := SkipOne(s, j, {MINUS, 43});
    j := SkipDigits(s, j);
  }

  /** The part `%-?%d+` */
  method SkipInteger(s: bytes, i: nat, ghost neg: bool, ghost digits: bytes, ghost rest: bytes) returns (j: nat)
    requires i <= |s| && s[i..] == NumberText(neg, digits) + rest
    requires digits != [] && AllDigits(digits) && Stops(rest)
    ensures j == i + |NumberText(neg, digits)| <= |s| && s[j..] == rest
  {
    SignedRun(s, i, neg, digits, rest);
    j := SkipOne(s, i, {MINUS});
    ghost var start := j;
    j := SkipDigits(s, j);
    RunEnds(s, start, j, IsDigit, digits, rest);
  }

  /** The pattern `^(%-?%d+%.?%d*[eE]?[-+]?%d*)()`, each item taking what it can. */
  method MatchNumber(s: bytes, i: nat, ghost neg: bool, ghost digits: bytes, ghost rest: bytes)
      returns (n: bytes, j: nat)
    requires i <= |s| && s[i..] == NumberText(neg, digits) + rest
    requires digits != [] && AllDigits(digits) && Stops(rest)
    ensures n == NumberText(neg, digits)
    ensures j <= |s| && s[j..] == rest
  {
    j := SkipInteger(s, i, neg, digits, rest);
    assert j < |s| ==> s[j] == s[j..][0] == rest[0];
    j := SkipFraction(s, j);
    Advance(s, i, NumberText(neg, digits), rest);
    n := s[i..j];
  }

  lemma SignedRun(s: bytes, i: nat, neg: bool, digits: bytes, rest: bytes)
    requires i <= |s| && s[i..] == NumberText(neg, digits) + rest && digits != [] && AllDigits(digits)
    ensures i < |s| && (s[i] == MINUS <==> neg)
    ensures s[if neg then i + 1 else i..] == digits + rest
  {
    assert s[i] == s[i..][0] && digits[0] in digits;
    assert s[i + 1..] == s[i..][1..];
    assert neg ==> s[i..] == [MINUS] + (digits + rest);
  }

  /** `tonumber` of a match without fraction and exponent. */
  function ToNumber(n: bytes): int
    requires n != [] && AllDigits(if n[0] == MINUS then n[1..] else n)
  {
    if n[0] == MINUS then 0 - DecimalValue(n[1..]) else DecimalValue(n)
  }

  lemma NumberRead(neg: bool, digits: bytes)
    requires digits != [] && AllDigits(digits)
    ensures var n := NumberText(neg, digits);
      n != [] && AllDigits(if n[0] == MINUS then n[1..] else n) && ToNumber(n) == Signed(neg, DecimalValue(digits))
  {
    assert digits[0] in digits;
    assert neg ==> NumberText(neg, digits)[1..] == digits;
  }

  // ----- strings -----

  lemma Peel(ps: seq<Piece>, rest: bytes)
    requires ps != [] && PiecesOk(ps)
    ensures PieceOk(ps[0]) && PiecesOk(ps[1..])
    ensures PutPieces(ps, rest) == ShowPiece(ps[0]) + PutPieces(ps[1..], rest)
    ensures StringValue(ps) == PieceValue(ps[0]) + StringValue(ps[1..])
  {
    assert ps[0] in ps;
  }

  /** One turn of the loop over a string's characters, the closing quote aside. */
  method ReadPiece(s: bytes, j: nat, ghost p: Piece, ghost rest: bytes) returns (v: bytes, next: nat)
    requires PieceOk(p)
    requires j < |s| && s[j..] == ShowPiece(p) + rest && s[j] != QUOTE
    ensures v == PieceValue(p)
    ensures next <= |s| && s[next..] == rest
  {
    Advance(s, j, ShowPiece(p), rest);
    ghost var w := s[j..j + |ShowPiece(p)|];
    assert forall k :: 0 <= k < |w| ==> w[k] == s[j + k];
    assert s[j] == w[0];
    var ch := s[j];
    if ch == BACKSLASH {
      var e := s[j + 1];
      if e == LOWER_U {
        assert p.code == s[j + 2..j + 6];
        return Utf8(CodeOf(s[j + 2..j + 6])), j + 6;
      }
      return [Unescaped(e)], j + 2;
    }
    return [ch], j + 1;
  }

  method ReadString(s: bytes, i: nat, ghost ps: seq<Piece>, ghost rest: bytes) returns (v: bytes, next: nat)
    requires PiecesOk(ps) && i < |s|
    requires s[i..] == PutString(ps, rest)
    ensures v == StringValue(ps)
    ensures next <= |s| && s[next..] == rest
  {
    Advance(s, i, [QUOTE], PutPieces(ps, [QUOTE] + rest));
    var j: nat := i + 1;
    v := [];
    ghost var left := ps;
    while true
      invariant j <= |s| && PiecesOk(left)
      invariant s[j..] == PutPieces(left, [QUOTE] + rest)
      invariant v + StringValue(left) == StringValue(ps)
      decreases |left|
    {
      StringGoesOn(left, rest);
      assert s[j] == s[j..][0];
      if s[j] == QUOTE {
        Advance(s, j, [QUOTE], rest);
        return v, j + 1;
      }
      Peel(left, [QUOTE] + rest);
      var out;
      out, j := ReadPiece(s, j, left[0], PutPieces(left[1..], [QUOTE] + rest));
      Regroup(v, out, StringValue(left[1..]));
      v := v + out;
      left := left[1..];
    }
  }

  lemma Regroup<T>(a: seq<T>, b: seq<T>, c: seq<T>)
    ensures a + (b + c) == a + b + c
  {
  }

  lemma StringGoesOn(ps: seq<Piece>, rest: bytes)
    requires PiecesOk(ps)
    ensures PutPieces(ps, [QUOTE] + rest) != []
    ensures PutPieces(ps, [QUOTE] + rest)[0] == QUOTE <==> ps == []
  {
    if ps != [] { Peel(ps, [QUOTE] + rest); }
  }

  // ----- when the string loop ends -----

  /**
   * One turn of that loop on any text, past its end included, where Lua gives
   * an empty string for the character. `Raised` is a turn that ends in an error:
   * what follows `\u` is no number, or a negative one.
   */
  datatype Turn = Closed(next: nat) | On(j: nat) | Raised

  /** `s:sub` from i up to j, which stops at the end of the text. */
  function Sub(s: bytes, i: nat, j: nat): bytes
    requires i <= j
  {
    s[if i < |s| then i else |s|..if j < |s| then j else |s|]
  }

  function StringTurn(s: bytes, j: nat): Turn {
    if Is(s, j, QUOTE) then Closed(j + 1)
    else if !Is(s, j, BACKSLASH) then On(j + 1)
    else if !Is(s, j + 1, LOWER_U) then On(j + 2)
    else if IsCode(Sub(s, j + 2, j + 6)) then On(j + 6)
    else Raised
  }

  /** After n turns of a loop that has not ended. */
  function After(turn: nat -> Turn, j: nat, n: nat): Turn
    decreases n
  {
    if n == 0 then On(j) else match turn(j) case On(k) => After(turn, k, n - 1) case t => t
  }

  function TurnsOf(s: bytes): nat -> Turn {
    (i: nat) => StringTurn(s, i)
  }

  function IndexAfter(s: bytes, j: nat, n: nat): Turn {
    After(TurnsOf(s), j, n)
  }

  ghost predicate LoopEnds(s: bytes, j: nat) { exists n: nat :: IndexAfter(s, j, n).Closed? }

  ghost predicate LoopRaises(s: bytes, j: nat) { exists n: nat :: IndexAfter(s, j, n).Raised? }

  ghost predicate LoopGoesOn(s: bytes, j: nat) { forall n: nat :: IndexAfter(s, j, n).On? }

  /** From j on the text is these whole pieces and then `tail`. */
  predicate PiecesThen(s: bytes, j: nat, ps: seq<Piece>, tail: bytes) {
    j <= |s| && PiecesOk(ps) && s[j..] == PutPieces(ps, tail)
  }

  // What can be ahead of the first turn that does not pass a whole piece.

  predicate Closing(tail: bytes) { Is(tail, 0, QUOTE) }

  predicate Coded(tail: bytes) { Is(tail, 0, BACKSLASH) && Is(tail, 1, LOWER_U) }

  /** The text stops inside the string: with nothing more, a lone backslash, or a number of fewer than four bytes. */
  predicate Hanging(tail: bytes) {
    tail == [] || tail == [BACKSLASH] || (Coded(tail) && |tail| < 6 && IsCode(tail[2..]))
  }

  /** `\u`, and the four bytes that follow, or as many as there are, are no number or a negative one. */
  predicate Malformed(tail: bytes) {
    Coded(tail) && !IsCode(Sub(tail, 2, 6))
  }

  lemma OneMorePiece(s: bytes, j: nat, ps: seq<Piece>, tail: bytes)
    requires j < |s| && StringTurn(s, j).On? && PiecesThen(s, StringTurn(s, j).j, ps, tail)
    ensures PiecesThen(s, j, [PieceAt(s, j)] + ps, tail)
  {
    assert ([PieceAt(s, j)] + ps)[1..] == ps;
  }

  /** The piece a turn passes. */
  function PieceAt(s: bytes, j: nat): (p: Piece)
    requires j < |s| && StringTurn(s, j).On? && StringTurn(s, j).j <= |s|
    ensures PieceOk(p) && s[j..] == ShowPiece(p) + s[StringTurn(s, j).j..]
  {
    if s[j] != BACKSLASH then
      assert s[j..] == [s[j]] + s[j + 1..];
      Raw(s[j])
    else if s[j + 1] != LOWER_U then
      assert s[j..] == [s[j], s[j + 1]] + s[j + 2..];
      Short(s[j + 1])
    else
      assert s[j..] == [s[j], s[j + 1]] + s[j + 2..j + 6] + s[j + 6..];
      Code(s[j + 2..j + 6])
  }

  lemma FirstTurn(s: bytes, j: nat, ps: seq<Piece>, tail: bytes) returns (k: nat)
    requires PiecesThen(s, j, ps, tail) && ps != []
    ensures StringTurn(s, j) == On(k) && PiecesThen(s, k, ps[1..], tail)
  {
    Peel(ps, tail);
    Advance(s, j, ShowPiece(ps[0]), PutPieces(ps[1..], tail));
    PieceTurns(s, j, ps[0]);
    k := j + |ShowPiece(ps[0])|;
  }

  lemma PieceTurns(s: bytes, j: nat, p: Piece)
    requires PieceOk(p) && j + |ShowPiece(p)| <= |s| && s[j..j + |ShowPiece(p)|] == ShowPiece(p)
    ensures StringTurn(s, j) == On(j + |ShowPiece(p)|)
  {
    var w := s[j..j + |ShowPiece(p)|];
    assert forall k :: 0 <= k < |w| ==> w[k] == s[j + k];
    assert s[j] == w[0];
    if !p.Raw? { assert s[j + 1] == w[1]; }
    if p.Code? { assert s[j + 2..j + 6] == w[2..6] == p.code; }
  }

  lemma {:induction false} AsPieces(s: bytes, j: nat) returns (ps: seq<Piece>, tail: bytes)
    requires j <= |s|
    ensures PiecesThen(s, j, ps, tail) && (Closing(tail) || Hanging(tail) || Malformed(tail))
    decreases |s| - j
  {
    if j < |s| && StringTurn(s, j).On? && StringTurn(s, j).j <= |s| {
      ps, tail := AsPieces(s, StringTurn(s, j).j);
      OneMorePiece(s, j, ps, tail);
      ps := [PieceAt(s, j)] + ps;
    } else {
      ps, tail := [], s[j..];
      TailFits(s, j, tail);
    }
  }

  lemma SameSub(s: bytes, j: nat, tail: bytes)
    requires j <= |s| && s[j..] == tail
    ensures Sub(s, j + 2, j + 6) == Sub(tail, 2, 6)
    ensures 2 <= |tail| < 6 ==> Sub(tail, 2, 6) == tail[2..]
    ensures forall b {:trigger Is(tail, 0, b)} :: Is(tail, 0, b) == Is(s, j, b)
    ensures forall b {:trigger Is(tail, 1, b)} :: Is(tail, 1, b) == Is(s, j + 1, b)
  {
    assert forall k :: 0 <= k < |tail| ==> tail[k] == s[j + k];
  }

  lemma TailFits(s: bytes, j: nat, tail: bytes)
    requires j <= |s| && s[j..] == tail
    ensures Closing(tail) <==> StringTurn(s, j).Closed?
    ensures Malformed(tail) <==> StringTurn(s, j).Raised?
    ensures Hanging(tail) <==> StringTurn(s, j).On? && StringTurn(s, j).j > |s|
  {
    SameSub(s, j, tail);
    assert Closing(tail) == Is(s, j, QUOTE);
    assert Coded(tail) == (Is(s, j, BACKSLASH) && Is(s, j + 1, LOWER_U));
  }

  lemma TurnStep(turn: nat -> Turn, j: nat, n: nat)
    ensures After(turn, j, n + 1) == if turn(j).On? then After(turn, turn(j).j, n) else turn(j)
  {
  }

  lemma {:induction false} Along(turn: nat -> Turn, ks: seq<nat>, n: nat)
    requires ks != [] && forall i :: 0 <= i < |ks| - 1 ==> turn(ks[i]) == On(ks[i + 1])
    ensures After(turn, ks[0], |ks| - 1 + n) == After(turn, ks[|ks| - 1], n)
    decreases |ks|
  {
    if |ks| > 1 {
      TurnStep(turn, ks[0], |ks| - 2 + n);
      Along(turn, ks[1..], n);
    }
  }

  lemma {:induction false} Upward(turn: nat -> Turn, from: nat, j: nat, n: nat)
    requires from <= j && forall i :: i >= from ==> turn(i) == On(i + 1)
    ensures After(turn, j, n).On?
    decreases n
  {
    if n > 0 {
      TurnStep(turn, j, n - 1);
      Upward(turn, from, j + 1, n - 1);
    }
  }

  lemma {:induction false} Settled(turn: nat -> Turn, j: nat, n: nat, m: nat)
    requires n <= m && !After(turn, j, n).On?
    ensures After(turn, j, m) == After(turn, j, n)
    decreases n
  {
    if n > 0 && turn(j).On? { Settled(turn, turn(j).j, n - 1, m - 1); }
  }

  /** Where each of the pieces starts, and what comes behind them. */
  lemma {:induction false} Starting(s: bytes, j: nat, ps: seq<Piece>, tail: bytes) returns (ks: seq<nat>)
    requires PiecesThen(s, j, ps, tail)
    ensures |ks| == |ps| + 1 && ks[0] == j && ks[|ps|] <= |s| && s[ks[|ps|]..] == tail
    ensures forall i :: 0 <= i < |ps| ==> StringTurn(s, ks[i]) == On(ks[i + 1])
    decreases |ps|
  {
    if ps == [] {
      ks := [j];
    } else {
      var k := FirstTurn(s, j, ps, tail);
      var more := Starting(s, k, ps[1..], tail);
      ks := [j] + more;
    }
  }

  lemma PastTheEnd(s: bytes, j: nat)
    requires j >= |s|
    ensures StringTurn(s, j) == On(j + 1)
  {
  }

  lemma BeyondTheEnd(s: bytes, j: nat, n: nat)
    requires j >= |s|
    ensures IndexAfter(s, j, n).On?
  {
    forall i: nat | i >= j ensures TurnsOf(s)(i) == On(i + 1) { PastTheEnd(s, i); }
    Upward(TurnsOf(s), j, j, n);
  }

  /** At what is not a whole piece the next turn is the last, or leaves the text for good. */
  lemma LastTurn(s: bytes, j: nat, n: nat)
    requires j <= |s| && n > 0
    ensures Closing(s[j..]) ==> IndexAfter(s, j, n).Closed?
    ensures Malformed(s[j..]) ==> IndexAfter(s, j, n).Raised?
    ensures Hanging(s[j..]) ==> IndexAfter(s, j, n).On?
  {
    TailFits(s, j, s[j..]);
    TurnStep(TurnsOf(s), j, n - 1);
    var t := StringTurn(s, j);
    if t.On? && t.j > |s| { BeyondTheEnd(s, t.j, n - 1); }
  }

  /** What the loop is after enough turns, by what is ahead after the whole pieces. */
  lemma InTheEnd(s: bytes, j: nat, ps: seq<Piece>, tail: bytes, n: nat)
    requires PiecesThen(s, j, ps, tail) && n > |ps|
    ensures Closing(tail) ==> IndexAfter(s, j, n).Closed?
    ensures Malformed(tail) ==> IndexAfter(s, j, n).Raised?
    ensures Hanging(tail) ==> IndexAfter(s, j, n).On?
  {
    var ks := Starting(s, j, ps, tail);
    Along(TurnsOf(s), ks, n - |ps|);
    LastTurn(s, ks[|ps|], n - |ps|);
  }

  lemma AtAnyTurn(s: bytes, j: nat, ps: seq<Piece>, tail: bytes, n: nat)
    requires PiecesThen(s, j, ps, tail) && !IndexAfter(s, j, n).On?
    ensures Closing(tail) ==> IndexAfter(s, j, n).Closed?
    ensures Malformed(tail) ==> IndexAfter(s, j, n).Raised?
    ensures !Hanging(tail)
  {
    InTheEnd(s, j, ps, tail, n + |ps| + 1);
    Settled(TurnsOf(s), j, n, n + |ps| + 1);
  }

  lemma TailDecides(s: bytes, j: nat, ps: seq<Piece>, tail: bytes)
    requires PiecesThen(s, j, ps, tail)
    ensures Closing(tail) ==> LoopEnds(s, j) && !LoopRaises(s, j) && !LoopGoesOn(s, j)
    ensures Malformed(tail) ==> LoopRaises(s, j) && !LoopEnds(s, j) && !LoopGoesOn(s, j)
    ensures Hanging(tail) ==> LoopGoesOn(s, j) && !LoopEnds(s, j) && !LoopRaises(s, j)
  {
    InTheEnd(s, j, ps, tail, |ps| + 1);
    forall n: nat | !IndexAfter(s, j, n).On?
      ensures Closing(tail) ==> IndexAfter(s, j, n).Closed?
      ensures Malformed(tail) ==> IndexAfter(s, j, n).Raised?
      ensures !Hanging(tail)
    {
      AtAnyTurn(s, j, ps, tail, n);
    }
  }

  lemma OffTheEnd(s: bytes, j: nat)
    requires j > |s|
    ensures LoopGoesOn(s, j) && !LoopEnds(s, j) && !LoopRaises(s, j)
  {
    forall n: nat ensures IndexAfter(s, j, n).On? { BeyondTheEnd(s, j, n); }
  }

  /** The loop ends, or raises, or goes on for ever. */
  lemma OneOfThree(s: bytes, j: nat)
    ensures LoopEnds(s, j) || LoopRaises(s, j) || LoopGoesOn(s, j)
    ensures !(LoopEnds(s, j) && LoopRaises(s, j)) && !(LoopEnds(s, j) && LoopGoesOn(s, j))
    ensures !(LoopRaises(s, j) && LoopGoesOn(s, j))
  {
    if j <= |s| {
      var ps, tail := AsPieces(s, j);
      TailDecides(s, j, ps, tail);
    } else {
      OffTheEnd(s, j);
    }
  }

  /** The loop finds a closing quote exactly when one follows whole pieces. */
  lemma StringEndsExactly(s: bytes, j: nat)
    ensures LoopEnds(s, j) <==> exists ps, tail :: PiecesThen(s, j, ps, tail) && Closing(tail)
  {
    if ps, tail :| PiecesThen(s, j, ps, tail) && Closing(tail) {
      TailDecides(s, j, ps, tail);
    } else if j <= |s| {
      var ps, tail := AsPieces(s, j);
      TailDecides(s, j, ps, tail);
    } else {
      OffTheEnd(s, j);
    }
  }

  /** It never ends exactly on text that stops inside the string. */
  lemma GoesOnExactly(s: bytes, j: nat)
    ensures LoopGoesOn(s, j) <==> j > |s| || exists ps, tail :: PiecesThen(s, j, ps, tail) && Hanging(tail)
  {
    if ps, tail :| PiecesThen(s, j, ps, tail) && Hanging(tail) {
      TailDecides(s, j, ps, tail);
    } else if j <= |s| {
      var ps, tail := AsPieces(s, j);
      TailDecides(s, j, ps, tail);
    } else {
      OffTheEnd(s, j);
    }
  }

  /** It raises exactly where `\u` follows whole pieces and no number that is not negative follows that. */
  lemma RaisesExactly(s: bytes, j: nat)
    ensures LoopRaises(s, j) <==> exists ps, tail :: PiecesThen(s, j, ps, tail) && Malformed(tail)
  {
    if ps, tail :| PiecesThen(s, j, ps, tail) && Malformed(tail) {
      TailDecides(s, j, ps, tail);
    } else if j <= |s| {
      var ps, tail := AsPieces(s, j);
      TailDecides(s, j, ps, tail);
    } else {
      OffTheEnd(s, j);
    }
  }

  // ----- inputs -----

  /** `a\"`: the quote is escaped and nothing closes the string. */
  lemma EscapedQuoteGoesOn()
    ensures LoopGoesOn([97, BACKSLASH, QUOTE], 0)
  {
    var s, ps := [97, BACKSLASH, QUOTE], [Raw(97), Short(QUOTE)];
    assert PutPieces(ps[1..], []) == [BACKSLASH, QUOTE];
    assert PutPieces(ps, []) == s;
    TailDecides(s, 0, ps, []);
  }

  /** `\u41` at the end: two digits are a number, and the index goes past the end. */
  lemma ShortCodeGoesOn()
    ensures LoopGoesOn([BACKSLASH, LOWER_U, 52, 49], 0)
  {
    var tail := [BACKSLASH, LOWER_U, 52, 49];
    assert tail[2..] == [] + [] + [52, 49] + [];
    NumeralIs(tail[2..], [], [], [52, 49], [], HexSum([52, 49]));
    TailDecides(tail, 0, [], tail);
  }

  lemma SignedCode()
    ensures IsCode([PLUS, 48, 52, 49]) && CodeOf([PLUS, 48, 52, 49]) == 65
  {
    var code, digits := [PLUS, 48, 52, 49], [48, 52, 49];
    assert HexSum([48]) == 0 by { assert [48][..0] == []; }
    assert HexSum([48, 52]) == 4 by { assert [48, 52][..1] == [48]; }
    assert HexSum(digits) == 65 by { assert digits[..2] == [48, 52]; }
    assert code == [] + [PLUS] + digits + [];
    NumeralIs(code, [], [PLUS], digits, [], 65);
  }

  /** `\u+041"` closes, and is the string `A`. */
  lemma SignedCodeCloses()
    ensures var s, ps := [BACKSLASH, LOWER_U, PLUS, 48, 52, 49, QUOTE], [Code([PLUS, 48, 52, 49])];
      LoopEnds(s, 0) && PiecesThen(s, 0, ps, [QUOTE]) && StringValue(ps) == [65]
  {
    SignedCode();
    var s, ps := [BACKSLASH, LOWER_U, PLUS, 48, 52, 49, QUOTE], [Code([PLUS, 48, 52, 49])];
    assert ps[1..] == [] && PutPieces(ps[1..], [QUOTE]) == [QUOTE];
    assert PutPieces(ps, [QUOTE]) == s;
    TailDecides(s, 0, ps, [QUOTE]);
  }

  // ----- how a text starts and stops -----

  predicate StartsValue(b: byte) {
    !IsSpace(b) && b != CLOSE_LIST && b != CLOSE_OBJECT && b != COMMA
  }

  lemma Starts(t: Text, rest: bytes)
    requires Ok(t)
    ensures Put(t, rest) != [] && StartsValue(Put(t, rest)[0])
    ensures match t
      case Null => Put(t, rest)[0] == 110
      case Truth(b) => Put(t, rest)[0] == if b then 116 else 102
      case Number(neg, ds) => Put(t, rest)[0] == MINUS || IsDigit(Put(t, rest)[0])
      case String(_) => Put(t, rest)[0] == QUOTE
      case EmptyList(_) => Put(t, rest)[0] == OPEN_LIST
      case List(_) => Put(t, rest)[0] == OPEN_LIST
      case _ => Put(t, rest)[0] == OPEN_OBJECT
  {
    if t.Number? { assert t.digits[0] in t.digits; }
  }

  predicate Ends(t: Text, rest: bytes) { t.Number? ==> Stops(rest) }

  /** What follows an item or a field stops what was read before it. */
  lemma GapStops(t: Text, gap: bytes, close: bytes, rest: bytes)
    requires Gap(gap) && (close == [COMMA] || Ending(t, gap, close)) && (close == [] ==> rest == [])
    ensures Ends(t, gap + (close + rest)) && OffSpace(close + rest)
  {
    if gap != [] { assert (gap + (close + rest))[0] == gap[0] && gap[0] in gap; }
  }

  /** Where the index is behind a value: before the rest, or one past the end of a text that was cut short. */
  predicate Behind(s: bytes, next: nat, short: bool, rest: bytes) {
    if short then next == |s| + 1 else next <= |s| && s[next..] == rest
  }

  // ----- values -----

  /** `P.value` */
  method ReadValue(s: bytes, at: nat, ghost gap: bytes, ghost t: Text, ghost rest: bytes) returns (v: Value, next: nat)
    requires Ok(t) && Gap(gap) && Ends(t, rest) && (Cut(t) ==> rest == [])
    requires at <= |s| && s[at..] == gap + Put(t, rest)
    ensures v == Meaning(t)
    ensures Behind(s, next, Cut(t), rest)
    decreases Size(t), 1
  {
    Starts(t, rest);
    var i := SkipGap(s, at, gap, Put(t, rest));
    assert i < |s| && s[i] == s[i..][0];
    if Is(s, i, OPEN_OBJECT) {
      v, next := ReadObject(s, i, t, rest);
    } else if Is(s, i, OPEN_LIST) {
      v, next := ReadList(s, i, t, rest);
    } else if Is(s, i, QUOTE) {
      var text;
      text, next := ReadString(s, i, t.pieces, rest);
      v := Str(text);
    } else {
      v, next := ReadScalar(s, i, t, rest);
    }
  }

  method ReadScalar(s: bytes, i: nat, ghost t: Text, ghost rest: bytes) returns (v: Value, next: nat)
    requires Ok(t) && Ends(t, rest) && (t.Null? || t.Truth? || t.Number?)
    requires i < |s| && s[i..] == Put(t, rest)
    ensures v == Meaning(t)
    ensures next <= |s| && s[next..] == rest
  {
    Starts(t, rest);
    assert s[i] == s[i..][0];
    ghost var w := if t.Null? then NULL else if t.Number? then NumberText(t.neg, t.digits)
                   else if t.b then TRUE else FALSE;
    Advance(s, i, w, rest);
    if Has(s, i, TRUE) {
      assert s[i] == s[i..i + 4][0];
      return Bool(true), i + 4;
    }
    if Has(s, i, FALSE) {
      assert s[i] == s[i..i + 5][0];
      return Bool(false), i + 5;
    }
    if Has(s, i, NULL) {
      assert s[i] == s[i..i + 4][0];
      return Nil, i + 4;
    }
    assert t.Number?;
    var n;
    n, next := MatchNumber(s, i, t.neg, t.digits, rest);
    NumberRead(t.neg, t.digits);
    v := Int(ToNumber(n));
  }

  // ----- lists -----

  /** `#t`: some border of the table, as Lua promises. */
  method Length(m: Entries) returns (b: nat)
    ensures IsBorder(m, b)
  {
    b := 0;
    ghost var left := m.Keys;
    while Num(b + 1) in m
      invariant b > 0 ==> Num(b) in m
      invariant forall k: int :: k > b && Num(k) in m ==> Num(k) in left
      decreases left
    {
      b := b + 1;
      left := left - {Num(b)};
    }
  }

  predicate IsBorder(m: Entries, b: nat) {
    (b > 0 ==> Num(b) in m) && Num(b + 1) !in m
  }

  lemma ListBorder(m: Entries, b: nat)
    requires IsList(m) && IsBorder(m, b)
    ensures b == |m|
  {
    assert Num(b + 1) in Indices(|m|) <==> b < |m|;
    assert b > 0 ==> (Num(b) in Indices(|m|) <==> b <= |m|);
  }

  lemma Pushed(a: seq<Value>, b: nat, v: Value)
    requires IsBorder(ListOf(a), b)
    ensures Set(ListOf(a), Num(b + 1), v) == ListOf(if v.Nil? then a else a + [v])
  {
    ListOfKeys(a);
    ListBorder(ListOf(a), b);
    ListOfKeys(a + [v]);
  }

  method ReadList(s: bytes, i: nat, ghost t: Text, ghost rest: bytes) returns (v: Value, next: nat)
    requires Ok(t) && (t.EmptyList? || t.List?) && (Cut(t) ==> rest == [])
    requires i < |s| && s[i..] == Put(t, rest)
    ensures v == Meaning(t)
    ensures Behind(s, next, Cut(t), rest)
    decreases Size(t), 0
  {
    var a: Entries := map[];
    if t.EmptyList? {
      Advance(s, i, [OPEN_LIST], t.gap + ([CLOSE_LIST] + rest));
    } else {
      Advance(s, i, [OPEN_LIST], PutItems(t.items, rest));
      Starts(t.items.text, t.items.after + AfterItem(t.items, rest));
    }
    ghost var here := if t.EmptyList? then [CLOSE_LIST] + rest
                      else Put(t.items.text, t.items.after + AfterItem(t.items, rest));
    var j := SkipGap(s, i + 1, if t.EmptyList? then t.gap else t.items.before, here);
    assert s[j] == s[j..][0];
    if Is(s, j, CLOSE_LIST) {
      Advance(s, j, [CLOSE_LIST], rest);
      return Table(a), j + 1;
    }
    a, next := ReadItems(s, j, t.items, rest);
    v := Table(a);
  }

  function AtItem(items: Items, rest: bytes): (r: bytes)
    ensures PutItems(items, rest) == items.before + r
  {
    Put(items.text, items.after + AfterItem(items, rest))
  }

  function MoreValues(items: Items): seq<Value>
    requires ItemsOk(items)
  {
    if items.LastItem? then [] else ItemValues(items.more)
  }

  method ReadItems(s: bytes, at: nat, ghost items: Items, ghost rest: bytes) returns (a: Entries, next: nat)
    requires ItemsOk(items) && (ItemsCut(items) ==> rest == [])
    requires at <= |s| && s[at..] == AtItem(items, rest)
    ensures a == ListOf(ItemValues(items))
    ensures Behind(s, next, ItemsCut(items), rest)
    decreases ItemsSize(items), 0
  {
    a, next := map[], at;
    ghost var left, gap, got := items, [], [];
    var comma := true;
    while true
      invariant ItemsOk(left) && Gap(gap) && ItemsSize(left) <= ItemsSize(items) && ItemsCut(left) == ItemsCut(items)
      invariant next <= |s| && s[next..] == gap + AtItem(left, rest)
      invariant a == ListOf(got) && got + ItemValues(left) == ItemValues(items)
      decreases left
    {
      a, next, got := NextItem(s, next, gap, left, rest, a, got);
      comma, next := ItemEnd(s, next, left, rest);
      if !comma {
        assert got + [] == got;
        return;
      }
      left := left.more;
      gap := left.before;
    }
  }

  method ItemEnd(s: bytes, j: nat, ghost items: Items, ghost rest: bytes) returns (comma: bool, next: nat)
    requires ItemsOk(items) && (ItemsCut(items) ==> rest == [])
    requires j <= |s| && s[j..] == AfterItem(items, rest)
    ensures comma == items.MoreItems?
    ensures comma ==> next <= |s| && s[next..] == items.more.before + AtItem(items.more, rest)
    ensures !comma ==> Behind(s, next, ItemsCut(items), rest)
  {
    if j < |s| {
      assert s[j] == s[j..][0];
      Advance(s, j, [s[j]], if items.LastItem? then rest else PutItems(items.more, rest));
    }
    return Is(s, j, COMMA), j + 1;
  }

  method ReadItem(s: bytes, at: nat, ghost gap: bytes, ghost items: Items, ghost rest: bytes)
      returns (v: Value, j: nat)
    requires ItemsOk(items) && Gap(gap) && (ItemsCut(items) ==> rest == [])
    requires at <= |s| && s[at..] == gap + AtItem(items, rest)
    ensures v == Meaning(items.text)
    ensures j <= |s| && s[j..] == AfterItem(items, rest)
    decreases Size(items.text), 2
  {
    GapStops(items.text, items.after, if items.LastItem? then items.close else [COMMA],
             if items.LastItem? then rest else PutItems(items.more, rest));
    v, j := ReadValue(s, at, gap, items.text, items.after + AfterItem(items, rest));
    j := SkipGap(s, j, items.after, AfterItem(items, rest));
  }

  /** One turn of the loop over a list, up to what follows the item. */
  method NextItem(s: bytes, at: nat, ghost gap: bytes, ghost items: Items, ghost rest: bytes, before: Entries,
      ghost had: seq<Value>) returns (a: Entries, j: nat, ghost got: seq<Value>)
    requires ItemsOk(items) && Gap(gap) && (ItemsCut(items) ==> rest == [])
    requires at <= |s| && s[at..] == gap + AtItem(items, rest)
    requires before == ListOf(had)
    ensures a == ListOf(got) && got + MoreValues(items) == had + ItemValues(items)
    ensures j <= |s| && s[j..] == AfterItem(items, rest)
    decreases Size(items.text), 3
  {
    var v;
    v, j := ReadItem(s, at, gap, items, rest);
    var n := Length(before);
    Pushed(had, n, v);
    a := Set(before, Num(n + 1), v);
    got := if v.Nil? then had else had + [v];
    Regroup(had, if v.Nil? then [] else [v], MoreValues(items));
  }

  // ----- objects -----

  method ReadObject(s: bytes, i: nat, ghost t: Text, ghost rest: bytes) returns (v: Value, next: nat)
    requires Ok(t) && (t.EmptyObject? || t.Object?) && (Cut(t) ==> rest == [])
    requires i < |s| && s[i..] == Put(t, rest)
    ensures v == Meaning(t)
    ensures Behind(s, next, Cut(t), rest)
    decreases Size(t), 0
  {
    ghost var here := if t.EmptyObject? then [CLOSE_OBJECT] + rest else AtName(t.fields, rest);
    if t.EmptyObject? {
      Advance(s, i, [OPEN_OBJECT], t.gap + here);
    } else {
      Advance(s, i, [OPEN_OBJECT], t.fields.head.before + here);
    }
    var j := SkipGap(s, i + 1, if t.EmptyObject? then t.gap else t.fields.head.before, here);
    assert s[j] == s[j..][0];
    if Is(s, j, CLOSE_OBJECT) {
      Advance(s, j, [CLOSE_OBJECT], rest);
      return Table(map[]), j + 1;
    }
    var o;
    o, next := ReadFields(s, j, t.fields, rest);
    v := Table(o);
  }

  function AfterName(f: Fields, rest: bytes): bytes {
    [f.head.colon] + (f.before + Put(f.text, f.after + AfterField(f, rest)))
  }

  function AtName(f: Fields, rest: bytes): (r: bytes)
    ensures PutFields(f, rest) == f.head.before + r
  {
    PutString(f.head.name, f.head.after + AfterName(f, rest))
  }

  method ReadFields(s: bytes, at: nat, ghost fields: Fields, ghost rest: bytes) returns (o: Entries, next: nat)
    requires FieldsOk(fields) && (FieldsCut(fields) ==> rest == [])
    requires at <= |s| && s[at..] == AtName(fields, rest)
    ensures o == FieldValues(fields, map[])
    ensures Behind(s, next, FieldsCut(fields), rest)
    decreases FieldsSize(fields), 0
  {
    o, next := map[], at;
    ghost var left, gap := fields, [];
    var comma := true;
    while true
      invariant FieldsOk(left) && Gap(gap) && FieldsSize(left) <= FieldsSize(fields)
      invariant FieldsCut(left) == FieldsCut(fields)
      invariant next <= |s| && s[next..] == gap + AtName(left, rest)
      invariant FieldValues(left, o) == FieldValues(fields, map[])
      decreases left
    {
      o, next := NextField(s, next, gap, left, rest, o);
      comma, next := FieldEnd(s, next, left, rest);
      if !comma { return; }
      left := left.more;
      gap := left.head.before;
    }
  }

  method FieldEnd(s: bytes, j: nat, ghost f: Fields, ghost rest: bytes) returns (comma: bool, next: nat)
    requires FieldsOk(f) && (FieldsCut(f) ==> rest == [])
    requires j <= |s| && s[j..] == AfterField(f, rest)
    ensures comma == f.MoreFields?
    ensures comma ==> next <= |s| && s[next..] == f.more.head.before + AtName(f.more, rest)
    ensures !comma ==> Behind(s, next, FieldsCut(f), rest)
  {
    if j < |s| {
      assert s[j] == s[j..][0];
      Advance(s, j, [s[j]], if f.LastField? then rest else PutFields(f.more, rest));
    }
    return Is(s, j, COMMA), j + 1;
  }

  /** The name of a field and the colon behind it. */
  method ReadName(s: bytes, at: nat, ghost gap: bytes, ghost f: Fields, ghost rest: bytes) returns (k: Key, j: nat)
    requires FieldsOk(f) && Gap(gap)
    requires at <= |s| && s[at..] == gap + AtName(f, rest)
    ensures k == Name(StringValue(f.head.name))
    ensures j <= |s| && s[j..] == f.before + Put(f.text, f.after + AfterField(f, rest))
    decreases Size(f.text), 2
  {
    var v;
    v, j := ReadValue(s, at, gap, String(f.head.name), f.head.after + AfterName(f, rest));
    j := SkipGap(s, j, f.head.after, AfterName(f, rest));
    Advance(s, j, [f.head.colon], f.before + Put(f.text, f.after + AfterField(f, rest)));
    k, j := Name(v.s), j + 1;
  }

  /** One turn of the loop over an object, up to what follows the field. */
  method NextField(s: bytes, at: nat, ghost gap: bytes, ghost f: Fields, ghost rest: bytes, before: Entries)
      returns (o: Entries, j: nat)
    requires FieldsOk(f) && Gap(gap) && (FieldsCut(f) ==> rest == [])
    requires at <= |s| && s[at..] == gap + AtName(f, rest)
    ensures o == Set(before, Name(StringValue(f.head.name)), Meaning(f.text))
    ensures j <= |s| && s[j..] == AfterField(f, rest)
    decreases Size(f.text), 3
  {
    var k, v;
    k, j := ReadName(s, at, gap, f, rest);
    GapStops(f.text, f.after, if f.LastField? then f.close else [COMMA],
             if f.LastField? then rest else PutFields(f.more, rest));
    v, j := ReadValue(s, j, f.before, f.text, f.after + AfterField(f, rest));
    o := Set(before, k, v);
    j := SkipGap(s, j, f.after, AfterField(f, rest));
  }

  /** `J.decode`: the empty string is nil; what follows the first value is not looked at. */
  method Decode(s: bytes, ghost gap: bytes, ghost t: Text, ghost rest: bytes) returns (v: Value)
    requires Ok(t) && Gap(gap) && Ends(t, rest) && (Cut(t) ==> rest == [])
    requires s == [] || s == gap + Put(t, rest)
    ensures v == if s == [] then Nil else Meaning(t)
  {
    if s == [] { return Nil; }
    assert s[0..] == s;
    var next;
    v, next := ReadValue(s, 0, gap, t, rest);
  }
}
