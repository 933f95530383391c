/** The console splitter of the GPRS master: a `getline` loop over a string stream. */
module Tokenizer {

  // ------------------------------ the splitter ------------------------------

  /** The position of the first space, or the length. */
  function Word(line: string): (n: nat)
    ensures n <= |line| && ' ' !in line[..n]
    ensures n < |line| ==> line[n] == ' '
  {
    if line == "" || line[0] == ' ' then 0
    else
      var n := Word(line[1..]);
      assert line[..n + 1] == [line[0]] + line[1..][..n];
      n + 1
  }

  /** A space ends a token, and so does the end of the line after at least one character. */
  function Tokens(line: string): seq<string>
    decreases |line|
  {
    if line == "" then []
    else
      var n := Word(line);
      if n == |line| then [line] else [line[..n]] + Tokens(line[n + 1..])
  }

  function Head(line: string): string {
    line[..Word(line)]
  }

  /** What is left once the first token and the space behind it are gone. */
  function Tail(line: string): (rest: string)
    ensures line != "" ==> |rest| < |line|
  {
    if Word(line) == |line| then "" else line[Word(line) + 1..]
  }

  lemma TokensStep(line: string)
    requires line != ""
    ensures Tokens(line) == [Head(line)] + Tokens(Tail(line))
  {
    assert line[..|line|] == line;
  }

  class StringStream {
    const text: string
    var at: nat
    var eof: bool

    predicate Valid()
      reads this
    {
      at <= |text| && (eof ==> at == |text|)
    }

    function Rest(): string
      reads this
      requires Valid()
    {
      text[at..]
    }

    constructor (line: string)
      ensures Valid() && Rest() == line
    {
      text, at, eof := line, 0, false;
    }

    /** `getline` with a space for delimiter: fails only when there is nothing left to extract. */
    method GetLine() returns (ok: bool, s: string)
      requires Valid()
      modifies this
      ensures Valid()
      ensures ok == (old(Rest()) != "")
      ensures ok ==> s == Head(old(Rest())) && Rest() == Tail(old(Rest()))
    {
      s := "";
      if eof {
        return false, s;
      }
      var start := at;
      while at < |text|
        invariant Valid() && start <= at && !eof
        invariant s == text[start..at]
        invariant |s| <= Word(text[start..])
        decreases |text| - at
      {
        var c := text[at];
        at := at + 1;
        if c == ' ' {
          assert text[start..][|s|] == c;
          return true, s;
        }
        assert |s| < Word(text[start..]);
        s := s + [c];
      }
      eof := true;
      ok := s != "";
    }
  }

  method Tokenize(line: string) returns (tokens: seq<string>)
    ensures tokens == Tokens(line)
  {
    var ss := new StringStream(line);
    tokens := [];
    ghost var left := line;
    var more, s := ss.GetLine();
    while more
      invariant ss.Valid() && fresh(ss)
      invariant more == (left != "")
      invariant more ==> s == Head(left) && ss.Rest() == Tail(left)
      invariant tokens + Tokens(left) == Tokens(line)
      decreases |left|
    {
      TokensStep(left);
      PushBack(tokens, s, Tokens(Tail(left)));
      tokens := tokens + [s];
      left := ss.Rest();
      more, s := ss.GetLine();
    }
  }

  lemma PushBack(done: seq<string>, s: string, left: seq<string>)
    ensures done + ([s] + left) == done + [s] + left
  {
  }

  // ------------------------------ joiners ------------------------------

  ghost predicate SpaceFree(ts: seq<string>) {
    forall t :: t in ts ==> ' ' !in t
  }

  /** Single spaces between the tokens. */
  function Join(ts: seq<string>): string {
    if ts == [] then "" else if |ts| == 1 then ts[0] else ts[0] + " " + Join(ts[1..])
  }

  /** A space after each token. */
  function Terminated(ts: seq<string>): string {
    if ts == [] then "" else ts[0] + " " + Terminated(ts[1..])
  }

  function WithoutFinalSpace(line: string): string {
    if line != "" && line[|line| - 1] == ' ' then line[..|line| - 1] else line
  }

  function WithFinalSpace(line: string): string {
    if line == "" || line[|line| - 1] == ' ' then line else line + " "
  }

  lemma {:induction false} WordOf(t: string, rest: string)
    requires ' ' !in t
    ensures Word(t) == |t| && Word(t + " " + rest) == |t|
  {
    if t != "" {
      WordOf(t[1..], rest);
      assert (t + " " + rest)[1..] == t[1..] + " " + rest;
    }
  }

  lemma {:induction false} NoSpaces(line: string)
    ensures SpaceFree(Tokens(line))
    decreases |line|
  {
    if line != "" && Word(line) < |line| {
      NoSpaces(line[Word(line) + 1..]);
    }
  }

  lemma FinalSpaceBehind(line: string, n: nat)
    requires n < |line| && line[n] == ' '
    ensures WithFinalSpace(line) == line[..n] + " " + WithFinalSpace(line[n + 1..])
  {
    assert line == line[..n] + " " + line[n + 1..];
  }

  /** Split, then end every token with a space: the line comes back, with a final space. */
  lemma {:induction false} SplitThenTerminate(line: string)
    ensures Terminated(Tokens(line)) == WithFinalSpace(line)
    decreases |line|
  {
    var n := Word(line);
    if n < |line| {
      SplitThenTerminate(line[n + 1..]);
      FinalSpaceBehind(line, n);
    } else if line != "" {
      assert line[..n] == line;
    }
  }

  lemma {:induction false} JoinIsTerminated(ts: seq<string>)
    requires ts != []
    ensures Terminated(ts) == Join(ts) + " "
  {
    if |ts| > 1 {
      JoinIsTerminated(ts[1..]);
    }
  }

  /** Split, then join: the line comes back, without its final space if it ends in one. */
  lemma SplitThenJoin(line: string)
    ensures Join(Tokens(line)) == WithoutFinalSpace(line)
  {
    SplitThenTerminate(line);
    if line != "" {
      JoinIsTerminated(Tokens(line));
      var full := WithFinalSpace(line);
      assert Join(Tokens(line)) == (Join(Tokens(line)) + " ")[..|full| - 1] == full[..|full| - 1];
    }
  }

  /** Tokens without spaces survive being terminated and split again. */
  lemma {:induction false} TerminateThenSplit(ts: seq<string>)
    requires SpaceFree(ts)
    ensures Tokens(Terminated(ts)) == ts
  {
    if ts != [] {
      TerminateThenSplit(ts[1..]);
      WordOf(ts[0], Terminated(ts[1..]));
      var line := ts[0] + " " + Terminated(ts[1..]);
      assert line[..|ts[0]|] == ts[0] && line[|ts[0]| + 1..] == Terminated(ts[1..]);
      assert ts == [ts[0]] + ts[1..];
    }
  }

  /** Joined instead of terminated, they survive exactly when the last is not empty. */
  lemma JoinThenSplitIff(ts: seq<string>)
    requires SpaceFree(ts)
    ensures Tokens(Join(ts)) == ts <==> ts == [] || ts[|ts| - 1] != ""
  {
    if ts != [] {
      TerminateThenSplit(ts);
      JoinIsTerminated(ts);
      JoinEnd(ts);
      SplitThenTerminate(Join(ts));
      if ts[|ts| - 1] != "" {
        SplitThenTerminate(Terminated(ts));
        SameTokensIff(Join(ts), Terminated(ts));
      } else {
        assert Tokens(Join(ts)) == ts ==> Terminated(ts) == Join(ts);
      }
    }
  }

  lemma {:induction false} JoinEnd(ts: seq<string>)
    requires ts != [] && SpaceFree(ts)
    ensures var line, last := Join(ts), ts[|ts| - 1];
            if last == "" then line == "" || line[|line| - 1] == ' ' else line != "" && line[|line| - 1] != ' '
  {
    if |ts| > 1 {
      JoinEnd(ts[1..]);
    } else {
      assert ts[0] in ts;
    }
  }

  /** Two lines have the same tokens exactly when they differ in a final space at most. */
  lemma SameTokensIff(a: string, b: string)
    ensures Tokens(a) == Tokens(b) <==> WithFinalSpace(a) == WithFinalSpace(b)
  {
    NoSpaces(a);
    NoSpaces(b);
    SplitThenTerminate(a);
    SplitThenTerminate(b);
    TerminateThenSplit(Tokens(a));
    TerminateThenSplit(Tokens(b));
  }
}
