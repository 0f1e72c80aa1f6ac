/** Output cleaning and comparison (gateway/internal/diff/engine.go). The escape
    pattern is a subset of the control sequences of section 5.4 of ECMA-48. */
module Diff {
  import opened Bytes

  const ESC: char := '\U{1b}'

  predicate IsParam(c: char) {
    '0' <= c <= '9' || c == ';'
  }

  predicate IsLetter(c: char) {
    'A' <= c <= 'Z' || 'a' <= c <= 'z'
  }

  /** A string the pattern matches as a whole. */
  predicate IsEscape(t: string) {
    && |t| >= 3 && t[0] == ESC && t[1] == '[' && IsLetter(t[|t| - 1])
    && forall k | 2 <= k < |t| - 1 :: IsParam(t[k])
  }

  /** The pattern by character codes: ESC, `[`, digits and semicolons, one letter. */
  lemma PatternByCodes(t: string)
    ensures IsEscape(t) <==>
            && 3 <= |t| && t[0] as int == 27 && t[1] as int == 91
            && (65 <= t[|t| - 1] as int <= 90 || 97 <= t[|t| - 1] as int <= 122)
            && forall k | 2 <= k < |t| - 1 :: 48 <= t[k] as int <= 57 || t[k] as int == 59
  {
  }

  function ParamRun(s: string): (n: nat)
    ensures n <= |s| && (forall k | 0 <= k < n :: IsParam(s[k])) && (n < |s| ==> !IsParam(s[n]))
  {
    if s != [] && IsParam(s[0]) then 1 + ParamRun(s[1..]) else 0
  }

  /** The length of the match at the head of `s`, or zero. */
  function MatchLen(s: string): (n: nat)
    ensures n <= |s|
  {
    if |s| >= 2 && s[0] == ESC && s[1] == '[' then
      var k := 2 + ParamRun(s[2..]);
      if k < |s| && IsLetter(s[k]) then k + 1 else 0
    else 0
  }

  /** How far one turn of the scanner goes: over a match, or over one character. */
  function Advance(s: string): (k: nat)
    requires s != []
    ensures 0 < k <= |s|
  {
    if MatchLen(s) > 0 then MatchLen(s) else 1
  }

  /** What one turn keeps. */
  function Keep(s: string): string
    requires s != []
  {
    if MatchLen(s) > 0 then "" else [s[0]]
  }

  /** `StripANSI`: one pass from left to right. */
  function Strip(s: string): (r: string)
    ensures |r| <= |s|
  {
    if s == [] then [] else Keep(s) + Strip(s[Advance(s)..])
  }

  lemma {:induction false} ParamRunIs(s: string, k: nat)
    requires k <= |s| && (forall j | 0 <= j < k :: IsParam(s[j])) && (k < |s| ==> !IsParam(s[k]))
    ensures ParamRun(s) == k
  {
    if k > 0 {
      ParamRunIs(s[1..], k - 1);
    }
  }

  /** The scanner finds the one escape that can begin here, if there is any. */
  lemma MatchIsTheEscape(s: string, n: nat)
    requires n <= |s|
    ensures IsEscape(s[..n]) <==> n > 0 && MatchLen(s) == n
  {
    if IsEscape(s[..n]) {
      var t := s[..n];
      assert forall k | 0 <= k < n :: s[k] == t[k];
      ParamRunIs(s[2..], n - 3);
    }
    if n > 0 && MatchLen(s) == n {
      assert forall k | 2 <= k < n - 1 :: s[k] == s[2..][k - 2];
    }
  }

  lemma NoMatchNoEscape(s: string)
    requires MatchLen(s) == 0
    ensures forall n | 0 <= n <= |s| :: !IsEscape(s[..n])
  {
    forall n | 0 <= n <= |s| ensures !IsEscape(s[..n]) {
      MatchIsTheEscape(s, n);
    }
  }

  // ------------------------------------------------ leftmost, not overlapping

  datatype Piece = Kept(c: char) | Removed(t: string)

  function Source(p: Piece): string {
    match p
    case Kept(c) => [c]
    case Removed(t) => t
  }

  function Joined(ps: seq<Piece>): string {
    if ps == [] then [] else Source(ps[0]) + Joined(ps[1..])
  }

  function KeptText(ps: seq<Piece>): string {
    if ps == [] then [] else (if ps[0].Kept? then [ps[0].c] else []) + KeptText(ps[1..])
  }

  /** Removed pieces are escapes, and where a character is kept no escape begins:
      the leftmost non-overlapping matches are removed, and nothing else. */
  ghost predicate Leftmost(ps: seq<Piece>) {
    ps == [] ||
    (Leftmost(ps[1..]) &&
     match ps[0]
     case Removed(t) => IsEscape(t)
     case Kept(_) => forall n | 0 <= n <= |Joined(ps)| :: !IsEscape(Joined(ps)[..n]))
  }

  /** Any way of cutting a text into kept characters and leftmost matches gives
      the stripped text. */
  lemma {:induction false} StripKeepsTheRest(ps: seq<Piece>)
    requires Leftmost(ps)
    ensures Strip(Joined(ps)) == KeptText(ps)
  {
    if ps != [] {
      var s := Joined(ps);
      StripKeepsTheRest(ps[1..]);
      match ps[0]
      case Removed(t) =>
        assert s[..|t|] == t && s[|t|..] == Joined(ps[1..]);
        MatchIsTheEscape(s, |t|);
      case Kept(c) =>
        MatchIsTheEscape(s, MatchLen(s));
        assert s[1..] == Joined(ps[1..]);
    }
  }

  /** The piece one turn makes. */
  function Take(s: string): Piece
    requires s != []
  {
    if MatchLen(s) > 0 then Removed(s[..MatchLen(s)]) else Kept(s[0])
  }

  function Cut(s: string): seq<Piece> {
    if s == [] then [] else [Take(s)] + Cut(s[Advance(s)..])
  }

  lemma {:induction false} CutJoins(s: string)
    ensures Joined(Cut(s)) == s
  {
    if s != [] {
      var k := Advance(s);
      CutJoins(s[k..]);
      JoinedCons(Take(s), Cut(s[k..]));
      TakeIsHead(s);
      SplitAt(s, k);
    }
  }

  lemma SplitAt(s: string, k: nat)
    requires k <= |s|
    ensures s[..k] + s[k..] == s
  {
  }

  lemma JoinedCons(p: Piece, ps: seq<Piece>)
    ensures Joined([p] + ps) == Source(p) + Joined(ps)
  {
    assert ([p] + ps)[1..] == ps;
  }

  lemma TakeIsHead(s: string)
    requires s != []
    ensures Source(Take(s)) == s[..Advance(s)]
  {
  }

  lemma LeftmostCons(p: Piece, ps: seq<Piece>, s: string)
    requires Leftmost(ps) && Joined([p] + ps) == s
    requires p.Removed? ==> IsEscape(p.t)
    requires p.Kept? ==> MatchLen(s) == 0
    ensures Leftmost([p] + ps)
  {
    assert ([p] + ps)[1..] == ps;
    if p.Kept? {
      NoMatchNoEscape(s);
    }
  }

  /** Every text can be cut so. */
  lemma {:induction false} EveryTextIsCut(s: string)
    ensures Joined(Cut(s)) == s && Leftmost(Cut(s))
  {
    CutJoins(s);
    if s != [] {
      EveryTextIsCut(s[Advance(s)..]);
      MatchIsTheEscape(s, MatchLen(s));
      LeftmostCons(Take(s), Cut(s[Advance(s)..]), s);
    }
  }

  // -------------------------------------------------------------- concatenation

  /** A proper prefix of an escape. */
  predicate Incomplete(t: string) {
    && |t| >= 1 && t[0] == ESC && (|t| >= 2 ==> t[1] == '[')
    && forall k | 2 <= k < |t| :: IsParam(t[k])
  }

  /** Some suffix of `a` could still become an escape. */
  ghost predicate Hanging(a: string) {
    exists i | 0 <= i < |a| :: Incomplete(a[i..])
  }

  /** No match that begins in `a` reaches into `b`. */
  ghost predicate NoStraddle(a: string, b: string) {
    forall i | 0 <= i < |a| :: MatchLen(a[i..] + b) <= |a| - i
  }

  lemma NoStraddleRest(a: string, b: string, k: nat)
    requires NoStraddle(a, b) && k <= |a|
    ensures NoStraddle(a[k..], b)
  {
    forall i | 0 <= i < |a[k..]| ensures MatchLen(a[k..][i..] + b) <= |a[k..]| - i {
      assert a[k..][i..] == a[k + i..];
    }
  }

  lemma {:induction false} StripConcat(a: string, b: string)
    requires NoStraddle(a, b)
    ensures Strip(a + b) == Strip(a) + Strip(b)
  {
    if a == [] {
      assert a + b == b;
    } else {
      assert a[0..] == a;
      MatchOfPrefix(a, b);
      var k := Advance(a);
      assert Advance(a + b) == k && Keep(a + b) == Keep(a);
      assert (a + b)[k..] == a[k..] + b;
      NoStraddleRest(a, b, k);
      StripConcat(a[k..], b);
      Associate(Keep(a), Strip(a[k..]), Strip(b));
    }
  }

  /** A match inside `a` is a match of `a` alone, and the other way round. */
  lemma MatchOfPrefix(a: string, b: string)
    requires MatchLen(a + b) <= |a|
    ensures MatchLen(a) == MatchLen(a + b)
  {
    var n, m := MatchLen(a + b), MatchLen(a);
    if n > 0 {
      MatchIsTheEscape(a + b, n);
      assert (a + b)[..n] == a[..n];
      MatchIsTheEscape(a, n);
    } else if m > 0 {
      MatchIsTheEscape(a, m);
      assert (a + b)[..m] == a[..m];
      MatchIsTheEscape(a + b, m);
    }
  }

  /** A match of `a + b` that ends in `b` makes `a` incomplete, and needs `b` to
      go on with it. */
  lemma StraddleIsIncomplete(a: string, b: string)
    requires a != [] && MatchLen(a + b) > |a|
    ensures Incomplete(a) && b != [] && b[0] != ESC
  {
    var s, n := a + b, MatchLen(a + b);
    MatchIsTheEscape(s, n);
    var t := s[..n];
    assert forall k | 0 <= k < |a| :: a[k] == t[k];
    assert b[0] == s[|a|] == t[|a|];
  }

  lemma StripAtBoundary(a: string, b: string)
    requires !Hanging(a) || b == [] || b[0] == ESC
    ensures Strip(a + b) == Strip(a) + Strip(b)
  {
    forall i | 0 <= i < |a| ensures MatchLen(a[i..] + b) <= |a| - i {
      if MatchLen(a[i..] + b) > |a| - i {
        StraddleIsIncomplete(a[i..], b);
      }
    }
    StripConcat(a, b);
  }

  lemma {:induction false} NoEscapeIsKept(s: string)
    requires forall k | 0 <= k < |s| :: s[k] != ESC
    ensures Strip(s) == s
  {
    if s != [] {
      NoEscapeIsKept(s[1..]);
    }
  }

  lemma IncompleteIsKept(t: string)
    requires Incomplete(t)
    ensures Strip(t) == t
  {
    NoEscapeIsKept(t[1..]);
    if |t| >= 2 {
      ParamRunIs(t[2..], |t| - 2);
    }
  }

  /** An escape in front is removed. */
  lemma StripAfterEscape(e: string, b: string)
    requires IsEscape(e)
    ensures Strip(e + b) == Strip(b)
  {
    var s := e + b;
    assert s[..|e|] == e && s[|e|..] == b;
    MatchIsTheEscape(s, |e|);
    EmptyEnds(Strip(b));
  }

  /** What would complete an incomplete escape. */
  function Completion(t: string): string {
    if |t| == 1 then "[m" else "m"
  }

  lemma CompletionCompletes(t: string)
    requires Incomplete(t)
    ensures IsEscape(t + Completion(t))
  {
    var e := t + Completion(t);
    assert forall k | 2 <= k < |e| - 1 :: e[k] == t[k];
  }

  /** Text may be stripped in chunks exactly when no suffix of the first chunk is
      an incomplete escape. */
  lemma ChunkLaw(a: string)
    ensures (forall b: string :: Strip(a + b) == Strip(a) + Strip(b)) <==> !Hanging(a)
  {
    if Hanging(a) {
      var i :| 0 <= i < |a| && Incomplete(a[i..]);
      HangingBreaksChunks(a, i);
    } else {
      forall b: string ensures Strip(a + b) == Strip(a) + Strip(b) {
        StripAtBoundary(a, b);
      }
    }
  }

  lemma HangingBreaksChunks(a: string, i: nat)
    requires i < |a| && Incomplete(a[i..])
    ensures var b := Completion(a[i..]); Strip(a + b) != Strip(a) + Strip(b)
  {
    var pre, t := a[..i], a[i..];
    assert a == pre + t;
    CompletedAndNot(pre, t);
  }

  /** The same end, completed and left open. */
  lemma CompletedAndNot(pre: string, t: string)
    requires Incomplete(t)
    ensures Strip(pre + t) == Strip(pre) + t
    ensures Strip(pre + t + Completion(t)) == Strip(pre)
  {
    var e := t + Completion(t);
    CompletionCompletes(t);
    StripAfterEscape(e, "");
    assert e + "" == e && Strip("") == "" && Strip(pre) + "" == Strip(pre);
    assert pre + t + Completion(t) == pre + e;
    StripAtBoundary(pre, e);
    StripAtBoundary(pre, t);
    IncompleteIsKept(t);
  }

  // --------------------------------------------------------------- repeated passes

  ghost predicate HasEscape(s: string) {
    exists i | 0 <= i < |s| :: MatchLen(s[i..]) > 0
  }

  lemma {:induction false} NoMatchUnchanged(s: string)
    requires !HasEscape(s)
    ensures Strip(s) == s
  {
    if s != [] {
      assert s[0..] == s;
      forall i | 0 <= i < |s| - 1 ensures MatchLen(s[1..][i..]) == 0 {
        assert s[1..][i..] == s[i + 1..];
      }
      NoMatchUnchanged(s[1..]);
    }
  }

  lemma {:induction false} MatchShortens(s: string, i: nat)
    requires i < |s| && MatchLen(s[i..]) > 0
    ensures |Strip(s)| + 3 <= |s|
  {
    MatchIsTheEscape(s, MatchLen(s));
    if MatchLen(s) == 0 {
      assert s[0..] == s;
      assert s[1..][i - 1..] == s[i..];
      MatchShortens(s[1..], i - 1);
    }
  }

  /** A pass changes a text exactly when it contains an escape, and then takes away
      at least three characters. */
  lemma PassShortens(s: string)
    ensures HasEscape(s) <==> Strip(s) != s
    ensures HasEscape(s) ==> |Strip(s)| + 3 <= |s|
  {
    if HasEscape(s) {
      var i :| 0 <= i < |s| && MatchLen(s[i..]) > 0;
      MatchShortens(s, i);
    } else {
      NoMatchUnchanged(s);
    }
  }

  /** What the kept text ends in: nothing an escape could grow from, a lone ESC, or
      ESC `[` with parameters. */
  datatype Tail = Plain | Lead | Open

  /** The tail after one more kept character; a letter on an open one is the end of
      an escape and is asked for separately. */
  function Grow(tail: Tail, c: char): Tail {
    if c == ESC then Lead
    else if tail.Lead? && c == '[' then Open
    else if tail.Open? && IsParam(c) then Open
    else Plain
  }

  /** Whether the pieces kept in one pass over `s` close up into an escape: one scan
      that skips whole matches. */
  predicate ClosesUp(s: string, tail: Tail)
    decreases |s|
  {
    if s == [] then false
    else if MatchLen(s) > 0 then ClosesUp(s[MatchLen(s)..], tail)
    else (tail.Open? && IsLetter(s[0])) || ClosesUp(s[1..], Grow(tail, s[0]))
  }

  /** The same scan over a text with no match to skip. */
  predicate Completes(t: string, tail: Tail) {
    t != [] && ((tail.Open? && IsLetter(t[0])) || Completes(t[1..], Grow(tail, t[0])))
  }

  lemma {:induction false} ClosesUpIsCompletes(s: string, tail: Tail)
    ensures ClosesUp(s, tail) <==> Completes(Strip(s), tail)
    decreases |s|
  {
    if s != [] {
      var rest := s[Advance(s)..];
      if MatchLen(s) > 0 {
        EmptyEnds(Strip(rest));
        ClosesUpIsCompletes(rest, tail);
      } else {
        assert ([s[0]] + Strip(rest))[1..] == Strip(rest);
        ClosesUpIsCompletes(rest, Grow(tail, s[0]));
      }
    }
  }

  /** An open tail: the parameters go on, and then it closes or is given up. */
  lemma {:induction false} OpenCompletes(t: string)
    ensures var k := ParamRun(t);
            Completes(t, Open) <==> (k < |t| && IsLetter(t[k])) || Completes(t[k..], Plain)
  {
    if t != [] {
      if IsParam(t[0]) {
        OpenCompletes(t[1..]);
        assert t[1..][ParamRun(t[1..])..] == t[ParamRun(t)..];
      } else {
        assert t[0..] == t;
      }
    }
  }

  lemma HasEscapeHere(t: string)
    requires t != []
    ensures HasEscape(t) <==> MatchLen(t) > 0 || HasEscape(t[1..])
  {
    assert t[0..] == t;
    if HasEscape(t) && MatchLen(t) == 0 {
      var i :| 0 <= i < |t| && MatchLen(t[i..]) > 0;
      assert t[1..][i - 1..] == t[i..];
    }
    if HasEscape(t[1..]) {
      var i :| 0 <= i < |t| - 1 && MatchLen(t[1..][i..]) > 0;
      assert t[1..][i..] == t[i + 1..];
    }
  }

  /** Text without ESC in front neither has nor prevents an escape. */
  lemma {:induction false} PlainInFront(t: string, k: nat, tail: string)
    requires k <= |t| && tail == t[k..] && forall i | 0 <= i < k :: t[i] != ESC
    ensures HasEscape(t) <==> HasEscape(tail)
  {
    if k == 0 {
      assert t[0..] == t;
    } else {
      HasEscapeHere(t);
      assert t[1..][k - 1..] == tail;
      PlainInFront(t[1..], k - 1, tail);
    }
  }

  /** ESC `[` in front: the parameters behind it close it, or the rest decides. */
  lemma OpenedScan(t: string, rest: string, k: nat)
    requires |t| >= 2 && t[0] == ESC && t[1] == '[' && rest == t[2..] && k == ParamRun(rest)
    ensures Completes(t, Plain) <==> (k < |rest| && IsLetter(rest[k])) || Completes(rest[k..], Plain)
  {
    OpenCompletes(rest);
    assert t[1..][1..] == rest;
    assert Completes(t, Plain) <==> Completes(t[1..], Lead);
  }

  lemma NoLeadAmongParams(rest: string, k: nat)
    requires k == ParamRun(rest)
    ensures forall i | 0 <= i < k + 1 :: (['['] + rest)[i] != ESC
  {
  }

  lemma BracketInFront(rest: string, k: nat)
    requires k == ParamRun(rest)
    ensures HasEscape(['['] + rest) <==> HasEscape(rest[k..])
  {
    assert (['['] + rest)[k + 1..] == rest[k..];
    NoLeadAmongParams(rest, k);
    PlainInFront(['['] + rest, k + 1, rest[k..]);
  }

  lemma OpenedHas(t: string, rest: string, k: nat)
    requires |t| >= 2 && t[0] == ESC && t[1] == '[' && rest == t[2..] && k == ParamRun(rest)
    ensures HasEscape(t) <==> (k < |rest| && IsLetter(rest[k])) || HasEscape(rest[k..])
  {
    HasEscapeHere(t);
    assert t[1..] == ['['] + rest;
    BracketInFront(rest, k);
  }

  /** From a plain tail the scan finds exactly the texts that have an escape. */
  lemma {:induction false} CompletesIffEscape(t: string)
    ensures Completes(t, Plain) <==> HasEscape(t)
    decreases |t|
  {
    if |t| >= 2 && t[0] == ESC && t[1] == '[' {
      var rest := t[2..];
      var k := ParamRun(rest);
      OpenedScan(t, rest, k);
      OpenedHas(t, rest, k);
      CompletesIffEscape(rest[k..]);
    } else if t != [] {
      HasEscapeHere(t);
      if t[0] == ESC {
        LoneEsc(t[1..]);
      }
      CompletesIffEscape(t[1..]);
    }
  }

  lemma LoneEsc(t: string)
    requires t == [] || t[0] != '['
    ensures Completes(t, Lead) <==> Completes(t, Plain)
  {
  }

  /** One pass is enough exactly when the pieces it keeps do not close up. */
  lemma OnePassIff(s: string)
    ensures Strip(Strip(s)) == Strip(s) <==> !ClosesUp(s, Plain)
  {
    PassShortens(Strip(s));
    CompletesIffEscape(Strip(s));
    ClosesUpIsCompletes(s, Plain);
  }

  lemma LeadIsKept(t: string)
    requires t == [] || t[0] != '['
    ensures Strip([ESC] + t) == [ESC] + Strip(t)
  {
    assert ([ESC] + t)[1..] == t;
  }

  lemma EscapeBody(e: string)
    requires IsEscape(e)
    ensures [ESC] + e[1..] == e
    ensures forall k | 0 <= k < |e[1..]| :: e[1..][k] != ESC
  {
    forall k | 0 <= k < |e[1..]| ensures e[1..][k] != ESC {
      assert e[1..][k] == e[k + 1];
    }
  }

  lemma EscapeStrips(e: string)
    requires IsEscape(e)
    ensures Strip(e) == ""
  {
    StripAfterEscape(e, "");
    EmptyEnds(e);
  }

  lemma InnerStrips(inner: string, body: string)
    requires IsEscape(inner) && Strip(body) == body
    ensures Strip([ESC] + (inner + body)) == [ESC] + body
  {
    LeadIsKept(inner + body);
    StripAfterEscape(inner, body);
  }

  /** It is not always enough: put one escape behind the ESC of another. */
  lemma OnePassIsNotEnough(e: string, inner: string)
    requires IsEscape(e) && IsEscape(inner)
    ensures var s := [ESC] + (inner + e[1..]);
            ClosesUp(s, Plain) && Strip(s) == e && Strip(Strip(s)) == ""
  {
    EscapeBody(e);
    NoEscapeIsKept(e[1..]);
    InnerStrips(inner, e[1..]);
    EscapeStrips(e);
    OnePassIff([ESC] + (inner + e[1..]));
  }

  /** Passes until nothing changes; they end because every changing pass shortens. */
  function StripAll(s: string): (r: string)
    ensures !HasEscape(r)
    decreases |s|
  {
    PassShortens(s);
    if Strip(s) == s then s else StripAll(Strip(s))
  }

  // ----------------------------------------------------------- process, compare

  function Split(s: string): (lines: seq<string>)
    ensures |lines| > 0
  {
    if s == [] then [""]
    else
      var rest := Split(s[1..]);
      if s[0] == '\n' then [""] + rest else [[s[0]] + rest[0]] + rest[1..]
  }

  function JoinLines(lines: seq<string>): string
    requires |lines| > 0
  {
    if |lines| == 1 then lines[0] else lines[0] + "\n" + JoinLines(lines[1..])
  }

  /** The lines of a text are its parts between newlines. */
  lemma {:induction false} LinesAreTheText(s: string)
    ensures JoinLines(Split(s)) == s
    ensures forall l | l in Split(s) :: '\n' !in l
  {
    if s != [] {
      var rest := Split(s[1..]);
      LinesAreTheText(s[1..]);
      if s[0] == '\n' {
        assert ([""] + rest)[1..] == rest;
        assert "" + "\n" + JoinLines(rest) == s;
      } else {
        var lines := [[s[0]] + rest[0]] + rest[1..];
        assert lines[1..] == rest[1..];
        assert JoinLines(lines) == [s[0]] + JoinLines(rest);
      }
    }
  }

  datatype DiffResult = DiffResult(sessionId: uint32, raw: string, clean: string, lines: seq<string>,
                                   md5: string, exitCode: int)

  /** `Process`, over any noise filter and any digest. */
  function Process(filter: string -> string, md5: string -> string,
                   sessionId: uint32, raw: string, exitCode: int): DiffResult {
    var clean := filter(Strip(raw));
    DiffResult(sessionId, raw, clean, Split(clean), md5(clean), exitCode)
  }

  /** Whether two results differ. */
  predicate Compare(a: DiffResult, b: DiffResult) {
    if a.exitCode != b.exitCode then true else a.md5 != b.md5
  }

  /** What a result says of its output: the cleaned text is the filtered rest of the
      raw text after any cut into escapes and kept characters, the lines and the digest
      are that text's, and the raw text, the session and the exit code are as given. */
  lemma ProcessCleans(filter: string -> string, md5: string -> string, x: uint32, raw: string, code: int,
                      ps: seq<Piece>)
    requires Leftmost(ps) && Joined(ps) == raw
    ensures var p := Process(filter, md5, x, raw, code);
            && p.clean == filter(KeptText(ps))
            && JoinLines(p.lines) == p.clean && (forall l | l in p.lines :: '\n' !in l)
            && p.md5 == md5(filter(KeptText(ps)))
            && p.raw == raw && p.sessionId == x && p.exitCode == code
  {
    StripKeepsTheRest(ps);
    LinesAreTheText(Process(filter, md5, x, raw, code).clean);
  }

  /** Colouring makes no difference behind any text that does not end in an
      incomplete escape, and only there: whatever follows, the cleaned text is as
      without it. */
  lemma EscapesVanishIff(a: string, e: string)
    requires IsEscape(e)
    ensures (forall b: string :: Strip(a + e + b) == Strip(a + b)) <==> !Hanging(a)
  {
    forall b: string ensures Strip(a + e + b) == Strip(a) + Strip(b) {
      assert a + e + b == a + (e + b);
      StripAtBoundary(a, e + b);
      StripAfterEscape(e, b);
    }
    ChunkLaw(a);
  }

  /** Then all of the result but the raw text is as without the escape, and the
      comparison does not see it. */
  lemma EscapesAreNotCompared(filter: string -> string, md5: string -> string,
                              a: string, e: string, b: string, x: uint32, y: uint32, code: int)
    requires IsEscape(e) && !Hanging(a)
    ensures var (coloured, plain) := (Process(filter, md5, x, a + e + b, code), Process(filter, md5, y, a + b, code));
            && coloured == plain.(sessionId := x, raw := a + e + b)
            && !Compare(coloured, plain)
  {
    EscapesVanishIff(a, e);
  }

  /** Two results compare equal exactly when the exit codes are the same and either
      the cleaned lines are, or the digests of two different texts collide. */
  lemma CompareSeesLines(filter: string -> string, md5: string -> string,
                         x: uint32, r: string, c: int, y: uint32, s: string, d: int)
    ensures var (p, q) := (Process(filter, md5, x, r, c), Process(filter, md5, y, s, d));
            && (!Compare(p, q) <==>
                  c == d && (p.lines == q.lines || (p.clean != q.clean && md5(p.clean) == md5(q.clean))))
            && JoinLines(p.lines) == p.clean
  {
    var (p, q) := (Process(filter, md5, x, r, c), Process(filter, md5, y, s, d));
    LinesAreTheText(p.clean);
    LinesAreTheText(q.clean);
  }
}
