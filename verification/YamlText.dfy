/** Text as it is written into a document: quoted keys with escape tokens, and long lines folded at spaces. */
module YamlText {
  import opened Sequences

  const BACKSLASH: char := '\\'

  // ----- escape tokens

  /** Every `token` gets a backslash in front of it. */
  function Pass(s: string, token: char): string {
    if s == "" then "" else (if s[0] == token then [BACKSLASH, token] else [s[0]]) + Pass(s[1..], token)
  }

  function Escaped(s: string, tokens: string): string
    decreases |tokens|
  {
    if tokens == "" then s else Escaped(Pass(s, tokens[0]), tokens[1..])
  }

  /** Every backslash that is not the last character goes, and keeps the character behind it from being looked at. */
  function Unescaped(s: string): string {
    if s == "" then ""
    else if s[0] == BACKSLASH && |s| > 1 then [s[1]] + Unescaped(s[2..])
    else [s[0]] + Unescaped(s[1..])
  }

  method AddEscapeTokens(input: string, tokens: string) returns (output: string)
    ensures output == Escaped(input, tokens)
  {
    output := input;
    for i := 0 to |tokens|
      invariant Escaped(input, tokens) == Escaped(output, tokens[i..])
    {
      assert tokens[i..][1..] == tokens[i + 1..];
      output := AddEscapeToken(output, tokens[i]);
    }
  }

  method AddEscapeToken(input: string, token: char) returns (output: string)
    ensures output == Pass(input, token)
  {
    output := input;
    var found: nat := FindFirstOf(output, token, 0);
    PassSkips(output, token, 0, found);
    assert output[0..] == output && output[..0] + Pass(output, token) == Pass(output, token);
    while found < |output|
      invariant found <= |output| && (found < |output| ==> output[found] == token)
      invariant Pass(input, token) == output[..found] + Pass(output[found..], token)
      decreases |output| - found
    {
      PassReplaces(output, token, found);
      output := output[..found] + [BACKSLASH, token] + output[found + 1..];
      var k := FindFirstOf(output, token, found + 2);
      PassSkips(output, token, found + 2, k);
      found := k;
    }
    assert output[..found] == output && output[found..] == "";
  }

  /** What a search skips, a pass leaves alone. */
  lemma {:induction false} PassSkips(s: string, token: char, from: nat, to: nat)
    requires from <= to <= |s| && forall i :: from <= i < to ==> s[i] != token
    ensures s[..from] + Pass(s[from..], token) == s[..to] + Pass(s[to..], token)
    decreases |s| - from
  {
    if from < to {
      assert s[from..][1..] == s[from + 1..] && s[..from + 1] == s[..from] + [s[from]];
      PassSkips(s, token, from + 1, to);
    }
  }

  lemma PassReplaces(s: string, token: char, found: nat)
    requires found < |s| && s[found] == token
    ensures var next := s[..found] + [BACKSLASH, token] + s[found + 1..];
      s[..found] + Pass(s[found..], token) == next[..found + 2] + Pass(next[found + 2..], token)
  {
    var next := s[..found] + [BACKSLASH, token] + s[found + 1..];
    assert s[found..][1..] == s[found + 1..] == next[found + 2..];
    assert next[..found + 2] == s[..found] + [BACKSLASH, token];
  }

  method RemoveAllEscapeTokens(input: string) returns (output: string)
    ensures output == Unescaped(input)
  {
    output := input;
    var found: nat := FindFirstOf(output, BACKSLASH, 0);
    UnescapedSkips(output, 0, found);
    assert output[0..] == output && output[..0] + Unescaped(output) == Unescaped(output);
    while found < |output|
      invariant found <= |output| && (found < |output| ==> output[found] == BACKSLASH)
      invariant Unescaped(input) == output[..found] + Unescaped(output[found..])
      decreases |output| - found
    {
      if found + 1 == |output| {
        UnescapedLast(output, found);
        return;
      }
      UnescapedReplaces(output, found);
      output := output[..found] + [output[found + 1]] + output[found + 2..];
      var k := FindFirstOf(output, BACKSLASH, found + 1);
      UnescapedSkips(output, found + 1, k);
      found := k;
    }
    assert output[..found] == output && output[found..] == "";
  }

  lemma {:induction false} UnescapedSkips(s: string, from: nat, to: nat)
    requires from <= to <= |s| && forall i :: from <= i < to ==> s[i] != BACKSLASH
    ensures s[..from] + Unescaped(s[from..]) == s[..to] + Unescaped(s[to..])
    decreases |s| - from
  {
    if from < to {
      assert s[from..][1..] == s[from + 1..] && s[..from + 1] == s[..from] + [s[from]];
      UnescapedSkips(s, from + 1, to);
    }
  }

  lemma UnescapedLast(s: string, found: nat)
    requires found + 1 == |s| && s[found] == BACKSLASH
    ensures s[..found] + Unescaped(s[found..]) == s
  {
    assert s[found..] == [BACKSLASH] && s[found..][1..] == "";
    assert Unescaped(s[found..]) == [BACKSLASH];
  }

  lemma UnescapedReplaces(s: string, found: nat)
    requires found + 1 < |s| && s[found] == BACKSLASH
    ensures var next := s[..found] + [s[found + 1]] + s[found + 2..];
      s[..found] + Unescaped(s[found..]) == next[..found + 1] + Unescaped(next[found + 1..])
  {
    var next := s[..found] + [s[found + 1]] + s[found + 2..];
    assert s[found..][2..] == s[found + 2..] == next[found + 1..];
    assert next[..found + 1] == s[..found] + [s[found + 1]];
  }

  // ----- what escaping is for

  /** Every character of `tokens` in `s` has a backslash in front of it. */
  function Quoted(s: string, tokens: set<char>): string {
    if s == "" then "" else (if s[0] in tokens then [BACKSLASH, s[0]] else [s[0]]) + Quoted(s[1..], tokens)
  }

  lemma {:induction false} UnescapedQuoted(s: string, tokens: set<char>)
    requires BACKSLASH in tokens
    ensures Unescaped(Quoted(s, tokens)) == s
  {
    if s != "" {
      UnescapedQuoted(s[1..], tokens);
      var q, rest := Quoted(s, tokens), Quoted(s[1..], tokens);
      if s[0] in tokens {
        assert q[2..] == rest;
      } else {
        assert q[1..] == rest && q[0] == s[0];
      }
    }
  }

  lemma {:induction false} PassQuoted(s: string, tokens: set<char>, token: char)
    requires token !in tokens && token != BACKSLASH
    ensures Pass(Quoted(s, tokens), token) == Quoted(s, tokens + {token})
  {
    if s != "" {
      PassQuoted(s[1..], tokens, token);
      var q, rest := Quoted(s, tokens), Quoted(s[1..], tokens);
      if s[0] in tokens {
        assert q[1..] == [s[0]] + rest && q[1..][1..] == rest;
        assert Pass(q[1..], token) == [s[0]] + Pass(rest, token);
        assert Pass(q, token) == [BACKSLASH] + Pass(q[1..], token);
      } else {
        assert q[1..] == rest;
      }
    }
  }

  lemma {:induction false} PassBackslash(s: string)
    ensures Pass(s, BACKSLASH) == Quoted(s, {BACKSLASH})
  {
    if s != "" { PassBackslash(s[1..]); }
  }

  lemma {:induction false} EscapedQuoted(s: string, done: set<char>, tokens: string)
    requires BACKSLASH in done && NoRepeats(tokens) && forall t <- tokens :: t !in done
    ensures exists all: set<char> :: BACKSLASH in all && Escaped(Quoted(s, done), tokens) == Quoted(s, all)
    decreases |tokens|
  {
    if tokens != "" {
      PassQuoted(s, done, tokens[0]);
      forall t <- tokens[1..] ensures t !in done + {tokens[0]} {
        var i :| 0 <= i < |tokens[1..]| && tokens[1..][i] == t;
        assert tokens[i + 1] == t;
      }
      EscapedQuoted(s, done + {tokens[0]}, tokens[1..]);
    }
  }

  /** Tokens that can be taken back: the backslash first, and none twice. */
  ghost predicate Reversible(tokens: string) { tokens != "" && tokens[0] == BACKSLASH && NoRepeats(tokens) }

  lemma RoundTrip(s: string, tokens: string)
    requires Reversible(tokens)
    ensures Unescaped(Escaped(s, tokens)) == s
  {
    PassBackslash(s);
    forall t <- tokens[1..] ensures t !in {BACKSLASH} {
      var i :| 0 <= i < |tokens[1..]| && tokens[1..][i] == t;
      assert tokens[i + 1] == t;
    }
    EscapedQuoted(s, {BACKSLASH}, tokens[1..]);
    var all: set<char> :| BACKSLASH in all && Escaped(Quoted(s, {BACKSLASH}), tokens[1..]) == Quoted(s, all);
    UnescapedQuoted(s, all);
  }

  /** Keys are written with `\` and `"` escaped, and read back as they were. */
  lemma KeyRoundTrip(key: string)
    ensures Unescaped(Escaped(key, [BACKSLASH, '"'])) == key
  {
    RoundTrip(key, [BACKSLASH, '"']);
  }

  // ----- tokens that cannot be taken back

  function Slashes(n: nat): string { seq(n, _ => BACKSLASH) }

  lemma {:induction false} PassSlashes(n: nat, tail: string, token: char)
    ensures Pass(Slashes(n) + tail, token) == Slashes(if token == BACKSLASH then 2 * n else n) + Pass(tail, token)
  {
    if n == 0 {
      assert Slashes(0) + tail == tail && Slashes(0) + Pass(tail, token) == Pass(tail, token);
    } else {
      var s, p := Slashes(n) + tail, Pass(tail, token);
      assert s[0] == BACKSLASH && s[1..] == Slashes(n - 1) + tail;
      PassSlashes(n - 1, tail, token);
      var head := if token == BACKSLASH then [BACKSLASH, BACKSLASH] else [BACKSLASH];
      var more := Slashes(if token == BACKSLASH then 2 * (n - 1) else n - 1);
      assert Pass(s, token) == head + (more + p) == (head + more) + p;
      assert head + more == Slashes(if token == BACKSLASH then 2 * n else n);
    }
  }

  /** Backslashes, and then `t` unless that is one too. */
  function Run(n: nat, t: char): string { Slashes(n) + if t == BACKSLASH then "" else [t] }

  /** How many backslashes are there after the passes. */
  function Grown(n: nat, t: char, tokens: string): nat
    decreases |tokens|
  {
    if tokens == "" then n
    else Grown(if tokens[0] == BACKSLASH then 2 * n else if tokens[0] == t then n + 1 else n, t, tokens[1..])
  }

  function Count(tokens: string, c: char): nat {
    if tokens == "" then 0 else (if tokens[0] == c then 1 else 0) + Count(tokens[1..], c)
  }

  lemma {:induction false} EscapedRun(n: nat, t: char, tokens: string)
    ensures Escaped(Run(n, t), tokens) == Run(Grown(n, t, tokens), t)
    decreases |tokens|
  {
    if tokens != "" {
      var token := tokens[0];
      var next := if token == BACKSLASH then 2 * n else if token == t then n + 1 else n;
      PassSlashes(n, if t == BACKSLASH then "" else [t], token);
      if token == t && t != BACKSLASH {
        assert Pass([t], token) == [BACKSLASH, t];
        assert Slashes(n) + [BACKSLASH, t] == Slashes(n + 1) + [t];
      } else if t != BACKSLASH {
        assert Pass([t], token) == [t];
      }
      EscapedRun(next, t, tokens[1..]);
    }
  }

  lemma {:induction false} GrownEnough(n: nat, t: char, tokens: string)
    requires n >= 1 || t != BACKSLASH
    ensures Grown(n, t, tokens) >= n + Count(tokens, t)
    ensures n >= 1 && Count(tokens, BACKSLASH) >= 1 ==> Grown(n, t, tokens) >= 2
    ensures t == BACKSLASH && Count(tokens, BACKSLASH) == 0 ==> Grown(n, t, tokens) == n
    decreases |tokens|
  {
    if tokens != "" {
      var next := if tokens[0] == BACKSLASH then 2 * n else if tokens[0] == t then n + 1 else n;
      GrownEnough(next, t, tokens[1..]);
    }
  }

  lemma {:induction false} UnescapedSlashes(n: nat)
    ensures Unescaped(Slashes(n)) == Slashes((n + 1) / 2)
  {
    if n >= 2 {
      UnescapedSlashes(n - 2);
      assert Slashes(n)[2..] == Slashes(n - 2);
      assert Slashes((n + 1) / 2) == [BACKSLASH] + Slashes((n - 1) / 2);
    } else if n == 1 {
      assert Slashes(1)[1..] == "";
      assert Unescaped(Slashes(1)) == [BACKSLASH] + Unescaped("");
    }
  }

  lemma {:induction false} CountIn(tokens: string, c: char)
    ensures Count(tokens, c) >= 1 <==> c in tokens
    ensures (exists i, j :: 0 <= i < j < |tokens| && tokens[i] == c == tokens[j]) ==> Count(tokens, c) >= 2
  {
    if tokens != "" {
      CountIn(tokens[1..], c);
      if i, j :| 0 <= i < j < |tokens| && tokens[i] == c == tokens[j] {
        assert tokens[1..][j - 1] == c;
        if i > 0 { assert tokens[1..][i - 1] == c == tokens[1..][j - 1]; }
      }
    }
  }

  /** A text made of backslashes and one other character that does not survive. */
  lemma Irreversible(tokens: string) returns (s: string)
    requires !Reversible(tokens)
    ensures Unescaped(Escaped(s, tokens)) != s
  {
    CountIn(tokens, BACKSLASH);
    var n, t: char := 1, BACKSLASH;
    if Count(tokens, BACKSLASH) == 0 {
      n := 2;
    } else if tokens[0] != BACKSLASH {
      n, t := 0, tokens[0];
      GrownEnough(1, t, tokens[1..]);
    } else {
      var i, j :| 0 <= i < j < |tokens| && tokens[i] == tokens[j];
      t := tokens[i];
      CountIn(tokens, t);
      n := if t == BACKSLASH then 1 else 0;
    }
    s := Run(n, t);
    EscapedRun(n, t, tokens);
    GrownEnough(n, t, tokens);
    if t == BACKSLASH {
      UnescapedSlashes(Grown(n, t, tokens));
      assert |s| == n && Run(Grown(n, t, tokens), t) == Slashes(Grown(n, t, tokens));
    } else {
      assert s == [t] && Run(Grown(n, t, tokens), t)[1] == BACKSLASH;
    }
  }

  /** Escaping can be taken back for every text exactly if the tokens are reversible. */
  lemma ReversibleExactly(tokens: string)
    ensures Reversible(tokens) <==> forall s: string :: Unescaped(Escaped(s, tokens)) == s
  {
    if Reversible(tokens) {
      forall s: string ensures Unescaped(Escaped(s, tokens)) == s { RoundTrip(s, tokens); }
    } else {
      var s := Irreversible(tokens);
    }
  }

  // ----- line folding

  /** Where the line that starts at `last` ends: at the first space that is not before `last + max`. */
  function FoldAt(s: string, last: nat, max: nat): nat { if last + max < |s| then Find(s, ' ', last + max) else |s| }

  function Folded(s: string, last: nat, max: nat): seq<string>
    decreases |s| - last
  {
    if last >= |s| then []
    else
      var k := FoldAt(s, last, max);
      if k >= |s| then [s[last..]] else [s[last..k]] + Folded(s, k + 1, max)
  }

  method LineFolding(input: string, max: nat) returns (folded: seq<string>)
    ensures folded == Folded(input, 0, max)
  {
    folded := [];
    if |input| == 0 { return; }
    var current, last: nat := 0, 0;
    while current < |input|
      invariant last <= |input| && Folded(input, 0, max) == folded + Folded(input, last, max)
      invariant current >= |input| ==> folded == Folded(input, 0, max)
      decreases |input| - last, |input| - current
    {
      current := last + max;
      var space := FindFold(input, last, max);
      if space == |input| {
        if last < |input| {
          folded := folded + [input[last..]];
        }
        return;
      }
      folded := Pushed(folded, input[last..space], Folded(input, space + 1, max));
      last := space + 1;
    }
  }

  method FindFold(input: string, last: nat, max: nat) returns (space: nat)
    ensures space == FoldAt(input, last, max)
  {
    if last + max >= |input| { return |input|; }
    space := FindFirstOf(input, ' ', last + max);
  }

  function Pushed(lines: seq<string>, line: string, rest: seq<string>): (more: seq<string>)
    ensures more == lines + [line] && lines + ([line] + rest) == more + rest
  {
    lines + [line]
  }

  function Join(lines: seq<string>): string {
    if lines == [] then "" else if |lines| == 1 then lines[0] else lines[0] + [' '] + Join(lines[1..])
  }

  /** The last fold falls on the last character. */
  predicate EndsAtFold(s: string, last: nat, max: nat)
    decreases |s| - last
  {
    last < |s| && FoldAt(s, last, max) < |s|
    && (FoldAt(s, last, max) == |s| - 1 || EndsAtFold(s, FoldAt(s, last, max) + 1, max))
  }

  /** Joining the lines with spaces gives the text back, except that a fold at its very end swallows the last space. */
  lemma {:induction false} JoinFolded(s: string, last: nat, max: nat)
    requires last <= |s|
    ensures s[last..] == Join(Folded(s, last, max)) + (if EndsAtFold(s, last, max) then " " else "")
    decreases |s| - last
  {
    if last < |s| {
      var k := FoldAt(s, last, max);
      if k < |s| {
        JoinFolded(s, k + 1, max);
        JoinMore(s[last..k], s[k + 1..], Folded(s, k + 1, max), if EndsAtFold(s, k + 1, max) then " " else "");
        SplitAt(s, last, k);
      }
    }
  }

  lemma SplitAt(s: string, last: nat, k: nat)
    requires last <= k < |s| && s[k] == ' '
    ensures s[last..] == s[last..k] + [' '] + s[k + 1..]
  {}

  lemma JoinMore(line: string, rest: string, lines: seq<string>, end: string)
    requires rest == Join(lines) + end
    ensures line + [' '] + rest == Join([line] + lines) + (if lines == [] then [' '] + end else end)
  {
    assert ([line] + lines)[1..] == lines;
  }

  /** Every line but the last is at least `max` long, and no line could have been folded any earlier. */
  lemma {:induction false} LinesFull(s: string, last: nat, max: nat)
    requires last <= |s|
    ensures var lines := Folded(s, last, max);
      && (last < |s| ==> lines != [])
      && (forall i :: 0 <= i < |lines| - 1 ==> |lines[i]| >= max)
      && forall line <- lines :: NoFold(line, max)
    decreases |s| - last
  {
    if last < |s| {
      FirstLine(s, last, max);
      if FoldAt(s, last, max) < |s| { LinesFull(s, FoldAt(s, last, max) + 1, max); }
    }
  }

  lemma FirstLine(s: string, last: nat, max: nat)
    requires last < |s|
    ensures var k := FoldAt(s, last, max); last <= k && NoFold(s[last..k], max) && (k < |s| ==> k - last >= max) && (k == |s| ==> s[last..k] == s[last..])
  {
    if last + max < |s| { FindIsFirst(s, ' ', last + max); }
  }

  predicate NoFold(line: string, max: nat) { forall p :: max <= p < |line| ==> line[p] != ' ' }
}
