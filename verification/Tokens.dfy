/** The actions of a session payload and the deduplication token each one gets. */
module Tokens {
  import opened Events

  // Page numbers and timestamps are whole numbers, as the SDK produces them.
  datatype Action =
    | Pageview(path: string, pageNumber: nat, duration: int, scroll: int, enteredAt: int, exitedAt: int)
    | Goal(name: string, path: string, pageNumber: nat, timestamp: int, value: Option<int>,
           properties: Option<map<string, string>>)
    | Unknown(kind: string)

  /** What a token stands for: a page of the session, or a goal at an SDK timestamp. */
  datatype ActionKey = PageKey(pageNumber: nat) | GoalKey(name: string, timestamp: int) | NoKey

  function KeyOf(a: Action): ActionKey {
    match a
    case Pageview(_, n, _, _, _, _) => PageKey(n)
    case Goal(name, _, _, timestamp, _, _) => GoalKey(name, timestamp)
    case Unknown(_) => NoKey
  }

  function KeysOf(actions: seq<Action>): seq<ActionKey> {
    seq(|actions|, i requires 0 <= i < |actions| => KeyOf(actions[i]))
  }

  function Digit(d: nat): (c: char)
    requires d < 10
    ensures '0' <= c <= '9'
  {
    ('0' as int + d) as char
  }

  function NatToString(n: nat): (s: string)
    ensures s != [] && forall i | 0 <= i < |s| :: '0' <= s[i] <= '9'
  {
    if n < 10 then [Digit(n)] else NatToString(n / 10) + [Digit(n % 10)]
  }

  function IntToString(n: int): string {
    if n < 0 then "-" + NatToString(-n) else NatToString(n)
  }

  function Token(sessionId: string, key: ActionKey): string {
    match key
    case PageKey(n) => sessionId + "_pv_" + NatToString(n)
    case GoalKey(name, timestamp) => sessionId + "_goal_" + name + "_" + IntToString(timestamp)
    case NoKey => ""
  }

  // ----- Reading a token back -----

  function DigitValue(c: char): nat {
    if '0' <= c <= '9' then c as int - '0' as int else 0
  }

  function ParseNat(s: string): nat {
    if s == [] then 0 else ParseNat(s[..|s| - 1]) * 10 + DigitValue(s[|s| - 1])
  }

  function ParseInt(s: string): int {
    if s != [] && s[0] == '-' then 0 - ParseNat(s[1..]) as int else ParseNat(s)
  }

  /** Where the part after the last underscore begins. */
  function AfterLastUnderscore(s: string): (i: nat)
    ensures i <= |s|
  {
    if s == [] then 0
    else if s[|s| - 1] == '_' then |s|
    else AfterLastUnderscore(s[..|s| - 1])
  }

  function Decode(sessionId: string, token: string): ActionKey {
    var page, goal := sessionId + "_pv_", sessionId + "_goal_";
    if page <= token then PageKey(ParseNat(token[|page|..]))
    else if goal <= token then
      var rest := token[|goal|..];
      var i := AfterLastUnderscore(rest);
      if i == 0 then NoKey else GoalKey(rest[..i - 1], ParseInt(rest[i..]))
    else NoKey
  }

  lemma {:induction false} ParseNatOfString(n: nat)
    ensures ParseNat(NatToString(n)) == n
  {
    if n >= 10 {
      ParseNatOfString(n / 10);
      assert NatToString(n)[..|NatToString(n)| - 1] == NatToString(n / 10);
    } else {
      assert NatToString(n)[..0] == [];
    }
  }

  lemma ParseIntOfString(n: int)
    ensures ParseInt(IntToString(n)) == n
  {
    if n < 0 {
      assert IntToString(n)[1..] == NatToString(-n);
      ParseNatOfString(-n);
    } else {
      ParseNatOfString(n);
    }
  }

  lemma {:induction false} LastUnderscoreAt(name: string, tail: string)
    requires '_' !in tail
    ensures AfterLastUnderscore(name + "_" + tail) == |name| + 1
  {
    var s := name + "_" + tail;
    if tail == [] {
      assert s[|s| - 1] == '_';
    } else {
      LastUnderscoreAt(name, tail[..|tail| - 1]);
      assert s[..|s| - 1] == name + "_" + tail[..|tail| - 1];
      assert s[|s| - 1] == tail[|tail| - 1];
    }
  }

  lemma DecodePage(sessionId: string, n: nat)
    ensures Decode(sessionId, Token(sessionId, PageKey(n))) == PageKey(n)
  {
    var page := sessionId + "_pv_";
    assert (page + NatToString(n))[|page|..] == NatToString(n);
    ParseNatOfString(n);
  }

  lemma DecodeGoal(sessionId: string, name: string, timestamp: int)
    ensures Decode(sessionId, Token(sessionId, GoalKey(name, timestamp))) == GoalKey(name, timestamp)
  {
    var tail := IntToString(timestamp);
    assert Token(sessionId, GoalKey(name, timestamp)) == sessionId + "_goal_" + (name + "_" + tail);
    SplitAtLastUnderscore(name, tail);
    DecodeAsGoal(sessionId, name + "_" + tail);
    ParseIntOfString(timestamp);
  }

  lemma DecodeAsGoal(sessionId: string, rest: string)
    requires AfterLastUnderscore(rest) > 0
    ensures var i := AfterLastUnderscore(rest);
            Decode(sessionId, sessionId + "_goal_" + rest) == GoalKey(rest[..i - 1], ParseInt(rest[i..]))
  {
    NotAPage(sessionId, sessionId + "_goal_" + rest);
    assert (sessionId + "_goal_" + rest)[|sessionId + "_goal_"|..] == rest;
  }

  lemma SplitAtLastUnderscore(name: string, tail: string)
    requires '_' !in tail
    ensures var rest := name + "_" + tail;
            var i := AfterLastUnderscore(rest);
            i == |name| + 1 && rest[..i - 1] == name && rest[i..] == tail
  {
    LastUnderscoreAt(name, tail);
  }

  lemma NotAPage(sessionId: string, token: string)
    requires sessionId + "_goal_" <= token
    ensures !(sessionId + "_pv_" <= token)
  {
    var n := |sessionId| + 1;
    assert token[n] == (sessionId + "_goal_")[n] == 'g' && (sessionId + "_pv_")[n] == 'p';
  }

  /** A token determines its action, even when the goal name holds underscores and digits. */
  lemma DecodeToken(sessionId: string, key: ActionKey)
    requires key != NoKey
    ensures Decode(sessionId, Token(sessionId, key)) == key
  {
    match key
    case PageKey(n) => DecodePage(sessionId, n);
    case GoalKey(name, timestamp) => DecodeGoal(sessionId, name, timestamp);
  }

  /** Numbers are written in decimal, and the two kinds of token as the handler writes them. */
  lemma TokenExamples()
    ensures Token("s", PageKey(12)) == "s_pv_12"
    ensures Token("s", GoalKey("a_b", 907)) == "s_goal_a_b_907"
    ensures Token("s", GoalKey("a_b", -5)) == "s_goal_a_b_-5"
  {
    Decimals();
    JoinsGoal("s", "a_b", 907, "907", "s_goal_a_b_907");
    JoinsGoal("s", "a_b", -5, "-5", "s_goal_a_b_-5");
    assert "s" + "_pv_" + "12" == "s_pv_12";
  }

  lemma JoinsGoal(sessionId: string, name: string, timestamp: int, digits: string, token: string)
    requires IntToString(timestamp) == digits && token == sessionId + "_goal_" + name + "_" + digits
    ensures Token(sessionId, GoalKey(name, timestamp)) == token
  {
  }

  lemma Decimals()
    ensures NatToString(12) == "12" && IntToString(907) == "907" && IntToString(-5) == "-5"
  {
    assert NatToString(1) == "1" && NatToString(5) == "5" && NatToString(9) == "9";
    assert NatToString(90) == NatToString(9) + "0";
  }

  /** Within a session, tokens and keys are the same thing. */
  lemma TokenInjective(sessionId: string, a: ActionKey, b: ActionKey)
    requires a != NoKey && b != NoKey
    ensures Token(sessionId, a) == Token(sessionId, b) <==> a == b
  {
    DecodeToken(sessionId, a);
    DecodeToken(sessionId, b);
  }
}
