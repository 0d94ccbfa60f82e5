/** The rule-based responder (`ruleBasedReply`): the reply the relay gives
    when no upstream key is configured or the upstream call gives up. It is
    total and deterministic and reads nothing but its argument. */
module Fallback {
  import opened JsText

  const PROMPT_REPLY := "Say something and I'll reply \U{1F642}"
  const GREETING_REPLY := "Hello! How can I help you today?"
  const HELP_REPLY := "I can answer simple questions or act as a demo AI. Ask about weather, coding tips, or say 'projects' to learn about me."
  const PROJECT_REPLY := "You can build a weather app, personal finance tracker, or an AI chatbot like this \U{2014} great starter projects!"
  const GITHUB_REPLY := "Check out my GitHub profile for projects: https://github.com/sagr12004"
  const THANKS_REPLY := "You're welcome! Happy to help."
  const DEMO_REPLY := "Sorry \U{2014} I'm a demo. Try 'hello', 'projects', or 'help'."

  /** Every reply the responder can give. */
  const REPLIES: set<string> :=
    {PROMPT_REPLY, GREETING_REPLY, HELP_REPLY, PROJECT_REPLY, GITHUB_REPLY, THANKS_REPLY, DEMO_REPLY}

  /** The message as the rules see it: lower-cased, then trimmed. */
  function Folded(userMessage: string): string
  {
    Trim(LowerCase(userMessage))
  }

  /** `ruleBasedReply(userMessage)`: the prompt for an empty message, else
      the reply of the first keyword test that succeeds, else the demo
      deflection. */
  function RuleBasedReply(userMessage: string): (r: string)
    ensures 0 < |r| <= 200
  {
    var m := Folded(userMessage);
    if m == "" then PROMPT_REPLY
    else if Contains(m, "hello") || Contains(m, "hi") then GREETING_REPLY
    else if Contains(m, "help") then HELP_REPLY
    else if Contains(m, "project") || Contains(m, "projects") then PROJECT_REPLY
    else if Contains(m, "github") then GITHUB_REPLY
    else if Contains(m, "thank") || Contains(m, "thanks") then THANKS_REPLY
    else DEMO_REPLY
  }

  /** The responder only ever gives one of its canned replies. */
  lemma RuleBasedReplyCanned(userMessage: string)
    ensures RuleBasedReply(userMessage) in REPLIES
  {
  }

  /** One keyword rule: any of `keywords` occurring selects `reply`. */
  datatype Rule = Rule(keywords: seq<string>, reply: string)

  /** The keyword table in priority order, one row per test of the source. */
  const RULES: seq<Rule> := [
    Rule(["hello", "hi"], GREETING_REPLY),
    Rule(["help"], HELP_REPLY),
    Rule(["project", "projects"], PROJECT_REPLY),
    Rule(["github"], GITHUB_REPLY),
    Rule(["thank", "thanks"], THANKS_REPLY)
  ]

  /** Some keyword of the list occurs in `m`. */
  predicate AnyContains(m: string, keywords: seq<string>)
  {
    keywords != [] && (Contains(m, keywords[0]) || AnyContains(m, keywords[1..]))
  }

  /** Reference reading of the responder: the reply of the first row of
      `rules`, from row `i` on, that matches, or `otherwise`. */
  function FirstMatch(m: string, rules: seq<Rule>, i: nat, otherwise: string): (r: string)
    requires i <= |rules|
    ensures r == otherwise || exists j :: i <= j < |rules| && r == rules[j].reply
    decreases |rules| - i
  {
    if i == |rules| then otherwise
    else if AnyContains(m, rules[i].keywords) then rules[i].reply
    else FirstMatch(m, rules, i + 1, otherwise)
  }

  /** The responder is the first-match reading of the keyword table. */
  lemma RuleBasedReplyIsFirstMatch(userMessage: string)
    ensures var m := Folded(userMessage);
      RuleBasedReply(userMessage) == if m == "" then PROMPT_REPLY else FirstMatch(m, RULES, 0, DEMO_REPLY)
  {
    var m := Folded(userMessage);
    var d := DEMO_REPLY;
    AnyContainsPair(m, "thank", "thanks");
    assert FirstMatch(m, RULES, 4, d) == if Contains(m, "thank") || Contains(m, "thanks") then THANKS_REPLY else d;
    AnyContainsOne(m, "github");
    assert FirstMatch(m, RULES, 3, d) == if Contains(m, "github") then GITHUB_REPLY else FirstMatch(m, RULES, 4, d);
    AnyContainsPair(m, "project", "projects");
    assert FirstMatch(m, RULES, 2, d) == if Contains(m, "project") || Contains(m, "projects") then PROJECT_REPLY else FirstMatch(m, RULES, 3, d);
    AnyContainsOne(m, "help");
    assert FirstMatch(m, RULES, 1, d) == if Contains(m, "help") then HELP_REPLY else FirstMatch(m, RULES, 2, d);
    AnyContainsPair(m, "hello", "hi");
    assert FirstMatch(m, RULES, 0, d) == if Contains(m, "hello") || Contains(m, "hi") then GREETING_REPLY else FirstMatch(m, RULES, 1, d);
  }

  lemma AnyContainsOne(m: string, a: string)
    ensures AnyContains(m, [a]) <==> Contains(m, a)
  {
    assert [a][1..] == [];
  }

  lemma AnyContainsPair(m: string, a: string, b: string)
    ensures AnyContains(m, [a, b]) <==> Contains(m, a) || Contains(m, b)
  {
    assert [a, b][1..] == [b];
    AnyContainsOne(m, b);
  }

  /** A message that is only whitespace (or empty) gets the prompt. */
  lemma BlankGetsPrompt(userMessage: string)
    requires AllWhitespace(userMessage)
    ensures RuleBasedReply(userMessage) == PROMPT_REPLY
  {
    LowerCaseKeepsWhitespace(userMessage);
  }

  lemma {:induction false} LowerCaseKeepsWhitespace(s: string)
    requires AllWhitespace(s)
    ensures LowerCase(s) == s
  {
    if s != [] {
      LowerCaseKeepsWhitespace(s[1..]);
      assert LowerCase(s) == [s[0]] + LowerCase(s[1..]);
    }
  }

  /** The greeting wins over every later rule; since "hi" is a substring
      test, any message containing "hi" (such as "this") is greeted. */
  lemma GreetingFirst(userMessage: string)
    requires Contains(Folded(userMessage), "hi")
    ensures RuleBasedReply(userMessage) == GREETING_REPLY
  {
  }

  /** The second tests for "projects" and "thanks" never change the reply:
      removing them gives the same responder. */
  lemma PluralTestsRedundant(userMessage: string)
    ensures var m := Folded(userMessage);
      && (Contains(m, "project") || Contains(m, "projects") <==> Contains(m, "project"))
      && (Contains(m, "thank") || Contains(m, "thanks") <==> Contains(m, "thank"))
  {
    var m := Folded(userMessage);
    if Contains(m, "projects") {
      assert "projects" == "project" + "s";
      ContainsLonger(m, "project", "s");
    }
    if Contains(m, "thanks") {
      assert "thanks" == "thank" + "s";
      ContainsLonger(m, "thank", "s");
    }
  }

  /** A message with "project" in it but no earlier keyword (such as "tell
      me about your projects") gets the project suggestion. */
  lemma ProjectQuestion(userMessage: string)
    requires var m := Folded(userMessage);
      && !Contains(m, "hello") && !Contains(m, "hi") && !Contains(m, "help")
      && Contains(m, "project")
    ensures RuleBasedReply(userMessage) == PROJECT_REPLY
  {
  }

  /** A message none of whose folded characters starts a keyword (such as
      "xyzzy") gets the demo deflection. */
  lemma NoKeywordStartDeflected(userMessage: string)
    requires var m := Folded(userMessage);
      m != "" && 'h' !in m && 'p' !in m && 'g' !in m && 't' !in m
    ensures RuleBasedReply(userMessage) == DEMO_REPLY
  {
    var m := Folded(userMessage);
    MissingFirstChar(m, "hello");
    MissingFirstChar(m, "hi");
    MissingFirstChar(m, "help");
    MissingFirstChar(m, "project");
    MissingFirstChar(m, "projects");
    MissingFirstChar(m, "github");
    MissingFirstChar(m, "thank");
    MissingFirstChar(m, "thanks");
  }

  /** "this" is greeted: "hi" is tested as a substring, not as a word. */
  lemma ThisIsGreeted(s: string)
    requires |s| == 4 && s[0] == 't' && s[1] == 'h' && s[2] == 'i' && s[3] == 's'
    ensures RuleBasedReply(s) == GREETING_REPLY
  {
    assert s == "this";
    LowerCaseOfLower(s);
    TrimOfTight(s);
    assert OccursAt(Folded(s), "hi", 1);
    GreetingFirst(s);
  }
}
