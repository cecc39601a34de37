/** The pattern parser as the source has it: positions into the pattern, moved in a loop. Every run
    is proved to compute the grammar's answer. */
module PathParser {
  import opened Wrappers
  import opened PathTokens
  import opened PathGrammar

  /** The open token is done, and a mark begins the next. */
  ghost function Opened(st: State, next: Kind, mark: char): State {
    State(next, st.done + [Token(st.kind, st.cur)], "", Some(mark))
  }

  lemma ParamOpened(wildcard: bool, st: State, rest: string)
    requires rest != "" && st.kind == Static && rest[0] == '{' && st.prev == Some('/')
    ensures Scan(wildcard, st, rest) == Scan(wildcard, Opened(st, Param, '{'), rest[1..])
  {
  }

  lemma WildcardOpened(st: State, rest: string)
    requires rest != "" && st.kind == Static && rest[0] == '#'
    ensures Scan(true, st, rest) == Scan(true, Opened(st, Wildcard, '#'), rest[1..])
  {
  }

  /** A parameter closes when it has a new, non-empty name, and the pattern ends or goes on with a slash. */
  lemma ParamClosed(wildcard: bool, st: State, rest: string)
    requires rest != "" && st.kind == Param && rest[0] == '}'
    ensures Scan(wildcard, st, rest) ==
      if st.cur == "" || !Fresh(st.done, st.cur) || (|rest| > 1 && rest[1] != '/') then None
      else Scan(wildcard, Opened(st, Static, '}'), rest[1..])
  {
  }

  lemma MarkRefused(wildcard: bool, st: State, rest: string)
    requires rest != "" && st.kind == Param && (rest[0] == '/' || rest[0] == '#')
    ensures Scan(wildcard, st, rest) == None
  {
  }

  class Parser {
    const wildcard: bool
    var pattern: string
    var tokenFirst: nat
    var prev: nat
    var it: nat
    var kind: Kind
    var tokens: seq<Token>

    ghost predicate Valid()
      reads this
    {
      tokenFirst <= it <= |pattern| && (prev == it == 0 || prev + 1 == it)
    }

    /** The scanner state these positions stand for. */
    ghost function Now(): State
      requires Valid()
      reads this
    {
      State(kind, tokens, pattern[tokenFirst..it], if prev == it then None else Some(pattern[prev]))
    }

    ghost function Ahead(): Option<seq<Token>>
      requires Valid()
      reads this
    {
      Scan(wildcard, Now(), pattern[it..])
    }

    constructor (wildcard: bool)
      ensures Valid() && this.wildcard == wildcard && tokens == []
    {
      this.wildcard := wildcard;
      pattern, tokenFirst, prev, it, kind, tokens := "", 0, 0, 0, Static, [];
    }

    /** Accepts exactly the grammar's patterns, and then holds the list that prints to the pattern. */
    method ParsePattern(pattern: string) returns (ok: bool)
      modifies this
      ensures ok <==> exists ts :: Grammatical(wildcard, ts) && Print(ts) == pattern
      ensures ok ==> Grammatical(wildcard, tokens) && Print(tokens) == pattern
      ensures PathGrammar.Parse(wildcard, pattern) == if ok then Some(tokens) else None
    {
      this.pattern := pattern;
      tokenFirst, prev, it, kind, tokens := 0, 0, 0, Static, [];
      assert pattern[0..] == pattern;
      ok := OnRoot();
      AcceptsExactlyGrammar(wildcard, pattern);
      if ok { PrintParse(wildcard, pattern); }
    }

    /** Hands the tokens over; the parser keeps none. */
    method Get() returns (ts: seq<Token>)
      modifies this`tokens
      ensures ts == old(tokens) && tokens == []
    {
      ts, tokens := tokens, [];
    }

    method OnRoot() returns (ok: bool)
      requires Valid()
      modifies this
      ensures pattern == old(pattern)
      ensures if ok then old(Ahead()) == Some(tokens) else old(Ahead()) == None
    {
      ghost var answer := Ahead();
      while it != |pattern|
        invariant Valid() && pattern == old(pattern) && Ahead() == answer
        decreases |pattern| - it
      {
        ok := Step();
        if !ok { return false; }
      }
      assert pattern[it..] == "" && pattern[tokenFirst..it] == pattern[tokenFirst..];
      match kind {
        case Static =>
          if tokenFirst != |pattern| { tokens := tokens + [Token(Static, pattern[tokenFirst..it])]; }
        case Param =>
          return false;
        case Wildcard =>
          var value := pattern[tokenFirst..it];
          if value == "" { return false; }
          ok := TryPushWithoutDuplicate(kind, value);
          return;
      }
      return true;
    }

    /** One turn of the loop: a mark opens or closes a token, anything else is read as text. */
    method Step() returns (ok: bool)
      requires Valid() && it < |pattern|
      modifies this
      ensures pattern == old(pattern)
      ensures ok ==> Valid() && it > old(it) && Ahead() == old(Ahead())
      ensures !ok ==> old(Ahead()) == None
    {
      ghost var before, rest := Now(), pattern[it..];
      assert rest[0] == pattern[it];
      if kind == Static && pattern[it] == '{' {
        if prev == it || pattern[prev] != '/' { return false; }
        OpenToken(Param);
        ParamOpened(wildcard, before, rest);
        return true;
      }
      if kind == Static && pattern[it] == '#' {
        if !wildcard { return false; }
        OpenToken(Wildcard);
        WildcardOpened(before, rest);
        return true;
      }
      if kind == Param && pattern[it] == '}' {
        ok := CloseParam();
        return;
      }
      if kind == Param && (pattern[it] == '/' || pattern[it] == '#') {
        MarkRefused(wildcard, before, rest);
        return false;
      }
      ok := ReadText();
    }

    /** The text so far becomes a token, and the mark opens another. */
    method OpenToken(next: Kind)
      requires Valid() && it < |pattern|
      modifies this
      ensures Valid() && pattern == old(pattern) && it == old(it) + 1
      ensures Now() == Opened(old(Now()), next, old(pattern[it]))
      ensures pattern[it..] == old(pattern[it..])[1..]
    {
      tokens := tokens + [Token(kind, pattern[tokenFirst..it])];
      kind := next;
      AdvanceIt();
      tokenFirst := it;
    }

    method CloseParam() returns (ok: bool)
      requires Valid() && it < |pattern| && kind == Param && pattern[it] == '}'
      modifies this
      ensures pattern == old(pattern)
      ensures ok ==> Valid() && it == old(it) + 1 && Ahead() == old(Ahead())
      ensures !ok ==> old(Ahead()) == None
    {
      ghost var before, rest := Now(), pattern[it..];
      assert rest[0] == '}' && |rest| == |pattern| - it && (|rest| > 1 ==> rest[1] == pattern[it + 1]);
      ParamClosed(wildcard, before, rest);
      var value := pattern[tokenFirst..it];
      if value == "" { return false; }
      ok := TryPushWithoutDuplicate(kind, value);
      if !ok { return; }
      kind := Static;
      AdvanceIt();
      tokenFirst := it;
      if it != |pattern| && pattern[it] != '/' { return false; }
      assert Now() == Opened(before, Static, '}');
      assert pattern[it..] == rest[1..];
    }

    method TryPushWithoutDuplicate(kind: Kind, value: string) returns (ok: bool)
      modifies this`tokens
      ensures ok == Fresh(old(tokens), value)
      ensures tokens == if ok then old(tokens) + [Token(kind, value)] else old(tokens)
    {
      for i := 0 to |tokens|
        invariant forall k | 0 <= k < i :: tokens[k].value != value
      {
        if tokens[i].value == value { return false; }
      }
      tokens := tokens + [Token(kind, value)];
      return true;
    }

    method AdvanceIt()
      requires it < |pattern|
      modifies this`it, this`prev
      ensures prev == old(it) && it == old(it) + 1
    {
      prev := it;
      it := it + 1;
    }

    /** Reads one lexical unit into the open token. */
    method ReadText() returns (ok: bool)
      requires Valid() && it < |pattern|
      requires kind == Static ==> pattern[it] != '{' && pattern[it] != '#'
      requires kind == Param ==> pattern[it] != '}'
      modifies this`it, this`prev
      ensures ok ==> Valid() && it > old(it) && Ahead() == old(Ahead())
      ensures !ok ==> old(Ahead()) == None
    {
      ghost var before, first, rest := Now(), it, pattern[it..];
      ghost var k := UnitLength(rest, kind == Static);
      assert rest[0] == pattern[it] && Ahead() == ScanUnit(wildcard, before, rest);
      if kind == Static && pattern[it] == '/' {
        AdvanceIt();
        ok := true;
      } else {
        ok := OnPchar();
      }
      if ok {
        assert rest[..k] == pattern[first..it] && rest[k..] == pattern[it..] && rest[k - 1] == pattern[prev];
        assert pattern[tokenFirst..it] == before.cur + rest[..k];
        assert Now() == before.(cur := before.cur + rest[..k], prev := Some(rest[k - 1]));
      }
    }

    method OnPchar() returns (ok: bool)
      requires it < |pattern|
      modifies this`it, this`prev
      ensures ok == (UnitLength(old(pattern[it..]), false) > 0)
      ensures ok ==> it == old(it) + UnitLength(old(pattern[it..]), false) <= |pattern| && prev + 1 == it
    {
      assert pattern[it..][0] == pattern[it];
      if IsPlain(pattern[it]) {
        AdvanceIt();
        return true;
      }
      if pattern[it] == '%' {
        ok := OnPctEncoded();
        return;
      }
      return false;
    }

    method OnPctEncoded() returns (ok: bool)
      requires it < |pattern| && pattern[it] == '%'
      modifies this`it, this`prev
      ensures ok == (UnitLength(old(pattern[it..]), false) == 3)
      ensures ok ==> it == old(it) + 3 <= |pattern| && prev + 1 == it
    {
      ghost var rest := pattern[it..];
      assert rest[0] == '%' && (|rest| > 1 ==> rest[1] == pattern[it + 1]);
      assert |rest| > 2 ==> rest[2] == pattern[it + 2];
      AdvanceIt();
      if it == |pattern| || !IsHex(pattern[it]) { return false; }
      AdvanceIt();
      if it == |pattern| || !IsHex(pattern[it]) { return false; }
      AdvanceIt();
      return true;
    }
  }
}
