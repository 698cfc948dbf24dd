/** The pipeline and redirection parser (app/zmux/python_shell.py), from the token
    list to the stages and redirections, and back. */
module Pipelines {
  import opened Wrappers

  datatype ParseError = InvalidPipeline | MissingTarget(operator: string) | NotAtEdge | InvalidCommand

  datatype Redirects = Redirects(input: Option<string>, output: Option<string>, append: bool)

  const NO_REDIRECTS := Redirects(None, None, false)

  datatype Plan = Plan(stages: seq<seq<string>>, redirects: Redirects)

  predicate IsRedirect(token: string) {
    token == "<" || token == ">" || token == ">>"
  }

  // ------------------------------------------------------------------ parser

  /** The token list cut at its bars. */
  function Split(tokens: seq<string>): (r: seq<seq<string>>)
    ensures r != []
  {
    if tokens == [] then [[]]
    else
      var stages, last := Split(tokens[..|tokens| - 1]), tokens[|tokens| - 1];
      if last == "|" then stages + [[]]
      else stages[..|stages| - 1] + [stages[|stages| - 1] + [last]]
  }

  /** A redirection is accepted for input in the first stage and for output in
      the last; the latest one counts. */
  function Redirected(red: Redirects, operator: string, target: string, first: bool, last: bool): Option<Redirects> {
    if operator == "<" && first then Some(red.(input := Some(target)))
    else if (operator == ">" || operator == ">>") && last then
      Some(red.(output := Some(target), append := operator == ">>"))
    else None
  }

  function ParseFrom(stage: seq<string>, pos: nat, first: bool, last: bool, argv: seq<string>, red: Redirects)
    : Result<(seq<string>, Redirects), ParseError>
    decreases |stage| - pos
  {
    if pos >= |stage| then
      if argv == [] then Err(InvalidCommand) else Ok((argv, red))
    else if IsRedirect(stage[pos]) then
      if pos + 1 >= |stage| then Err(MissingTarget(stage[pos]))
      else
        match Redirected(red, stage[pos], stage[pos + 1], first, last)
        case None => Err(NotAtEdge)
        case Some(red) => ParseFrom(stage, pos + 2, first, last, argv, red)
    else ParseFrom(stage, pos + 1, first, last, argv + [stage[pos]], red)
  }

  function ParseStages(stages: seq<seq<string>>, index: nat, cleaned: seq<seq<string>>, red: Redirects)
    : Result<Plan, ParseError>
    decreases |stages| - index
  {
    if index >= |stages| then Ok(Plan(cleaned, red))
    else
      match ParseFrom(stages[index], 0, index == 0, index == |stages| - 1, [], red)
      case Err(e) => Err(e)
      case Ok((argv, red)) => ParseStages(stages, index + 1, cleaned + [argv], red)
  }

  function Parse(tokens: seq<string>): Result<Plan, ParseError> {
    var stages := Split(tokens);
    if [] in stages then Err(InvalidPipeline) else ParseStages(stages, 0, [], NO_REDIRECTS)
  }

  method ParsePipeline(tokens: seq<string>) returns (r: Result<Plan, ParseError>)
    ensures r == Parse(tokens)
  {
    var stages: seq<seq<string>> := [];
    var current: seq<string> := [];
    for i := 0 to |tokens|
      invariant stages + [current] == Split(tokens[..i])
    {
      assert tokens[..i + 1][..i] == tokens[..i];
      assert (stages + [current])[..|stages|] == stages;
      if tokens[i] == "|" {
        stages, current := stages + [current], [];
      } else {
        current := current + [tokens[i]];
      }
    }
    assert tokens[..|tokens|] == tokens;
    stages := stages + [current];
    if [] in stages {
      return Err(InvalidPipeline);
    }
    var red := NO_REDIRECTS;
    var cleaned: seq<seq<string>> := [];
    for index := 0 to |stages|
      invariant ParseStages(stages, 0, [], NO_REDIRECTS) == ParseStages(stages, index, cleaned, red)
    {
      var stage := ParseStage(stages[index], index == 0, index == |stages| - 1, red);
      if stage.Err? {
        return Err(stage.error);
      }
      cleaned, red := cleaned + [stage.value.0], stage.value.1;
    }
    return Ok(Plan(cleaned, red));
  }

  method ParseStage(stage: seq<string>, first: bool, last: bool, before: Redirects)
    returns (r: Result<(seq<string>, Redirects), ParseError>)
    ensures r == ParseFrom(stage, 0, first, last, [], before)
  {
    var argv: seq<string> := [];
    var red := before;
    var pos := 0;
    while pos < |stage|
      invariant ParseFrom(stage, 0, first, last, [], before) == ParseFrom(stage, pos, first, last, argv, red)
      decreases |stage| - pos
    {
      var token := stage[pos];
      if IsRedirect(token) {
        if pos + 1 >= |stage| {
          return Err(MissingTarget(token));
        }
        var next := Redirected(red, token, stage[pos + 1], first, last);
        if next.None? {
          return Err(NotAtEdge);
        }
        red := next.value;
        pos := pos + 2;
      } else {
        argv := argv + [token];
        pos := pos + 1;
      }
    }
    if argv == [] {
      return Err(InvalidCommand);
    }
    return Ok((argv, red));
  }

  // --------------------------------------------------------------- rendering

  /** What a stage is made of, in the order it is written. */
  datatype Item = Arg(word: string) | In(target: string) | Out(target: string, append: bool)

  function Tokens(item: Item): seq<string> {
    match item
    case Arg(word) => [word]
    case In(target) => ["<", target]
    case Out(target, append) => [if append then ">>" else ">", target]
  }

  function RenderStage(items: seq<Item>): seq<string> {
    if items == [] then [] else Tokens(items[0]) + RenderStage(items[1..])
  }

  /** Stages put together with a bar between them. */
  function Join(stages: seq<seq<string>>): seq<string>
    requires stages != []
  {
    var n := |stages| - 1;
    if n == 0 then stages[0] else Join(stages[..n]) + ["|"] + stages[n]
  }

  function RenderAll(stages: seq<seq<Item>>): (r: seq<seq<string>>)
    ensures |r| == |stages|
  {
    seq(|stages|, i requires 0 <= i < |stages| => RenderStage(stages[i]))
  }

  function Render(stages: seq<seq<Item>>): seq<string>
    requires stages != []
  {
    Join(RenderAll(stages))
  }

  /** An argument is no operator; a target may be any token but the bar. Input is
      redirected in the first stage only, output in the last. */
  predicate Proper(item: Item, first: bool, last: bool) {
    match item
    case Arg(word) => word != "|" && !IsRedirect(word)
    case In(target) => target != "|" && first
    case Out(target, _) => target != "|" && last
  }

  predicate AllProper(items: seq<Item>, first: bool, last: bool) {
    forall i | 0 <= i < |items| :: Proper(items[i], first, last)
  }

  predicate ProperStage(items: seq<Item>, first: bool, last: bool) {
    AllProper(items, first, last) && Args(items) != []
  }

  predicate ProperPipeline(stages: seq<seq<Item>>) {
    stages != [] && forall i | 0 <= i < |stages| :: ProperStage(stages[i], i == 0, i == |stages| - 1)
  }

  function Words(item: Item): seq<string> {
    if item.Arg? then [item.word] else []
  }

  function Args(items: seq<Item>): seq<string> {
    if items == [] then [] else Words(items[0]) + Args(items[1..])
  }

  function Effect(item: Item, red: Redirects): Redirects {
    match item
    case Arg(_) => red
    case In(target) => red.(input := Some(target))
    case Out(target, append) => red.(output := Some(target), append := append)
  }

  /** The redirections of a stage, later ones taking over from earlier ones. */
  function Redirections(items: seq<Item>, red: Redirects): Redirects {
    if items == [] then red else Redirections(items[1..], Effect(items[0], red))
  }

  /** What a pipeline means: its arguments stage by stage, the last input
      redirection, the last output redirection. */
  function Meaning(stages: seq<seq<Item>>): Plan {
    if stages == [] then Plan([], NO_REDIRECTS)
    else
      var front, last := Meaning(stages[..|stages| - 1]), stages[|stages| - 1];
      Plan(front.stages + [Args(last)], Redirections(last, front.redirects))
  }

  // ------------------------------------------------- from rendering to plan

  /** Another token at the end: a bar opens a part, any other goes to the last. */
  lemma SplitPush(a: seq<string>, token: string)
    ensures var parts := Split(a);
            Split(a + [token]) ==
            if token == "|" then parts + [[]]
            else parts[..|parts| - 1] + [parts[|parts| - 1] + [token]]
  {
    assert (a + [token])[..|a|] == a;
  }

  lemma LastPartGrows(parts: seq<seq<string>>, part: seq<string>, token: string)
    ensures var all := parts + [part]; all[..|all| - 1] + [all[|all| - 1] + [token]] == parts + [part + [token]]
  {
  }

  lemma FrontAndLast(b: seq<string>)
    requires b != []
    ensures b[..|b| - 1] + [b[|b| - 1]] == b
  {
  }

  lemma {:induction false} SplitAfterBar(a: seq<string>, b: seq<string>)
    requires "|" !in b
    ensures Split(a + ["|"] + b) == Split(a) + [b]
  {
    if b == [] {
      SplitPush(a, "|");
      assert a + ["|"] + b == a + ["|"];
    } else {
      var front, last := b[..|b| - 1], b[|b| - 1];
      SplitAfterBar(a, front);
      SplitPush(a + ["|"] + front, last);
      LastPartGrows(Split(a), front, last);
      FrontAndLast(b);
      assert a + ["|"] + b == (a + ["|"] + front) + [last];
    }
  }

  lemma {:induction false} SplitPlain(b: seq<string>)
    requires "|" !in b
    ensures Split(b) == [b]
  {
    if b != [] {
      var front, last := b[..|b| - 1], b[|b| - 1];
      SplitPlain(front);
      SplitPush(front, last);
      LastPartGrows([], front, last);
      FrontAndLast(b);
      assert [] + [front] == [front] && [] + [b] == [b];
    }
  }

  lemma {:induction false} SplitJoin(stages: seq<seq<string>>)
    requires stages != [] && forall i | 0 <= i < |stages| :: "|" !in stages[i]
    ensures Split(Join(stages)) == stages
  {
    var n := |stages| - 1;
    if n == 0 {
      SplitPlain(stages[0]);
    } else {
      var front := stages[..n];
      forall i | 0 <= i < |front| ensures "|" !in front[i] {
        assert front[i] == stages[i];
      }
      SplitJoin(front);
      SplitAfterBar(Join(front), stages[n]);
      StagesFrontAndLast(stages);
    }
  }

  lemma StagesFrontAndLast(stages: seq<seq<string>>)
    requires stages != []
    ensures stages[..|stages| - 1] + [stages[|stages| - 1]] == stages
  {
  }

  lemma {:induction false} JoinSplit(tokens: seq<string>)
    ensures Join(Split(tokens)) == tokens
    ensures forall i | 0 <= i < |Split(tokens)| :: "|" !in Split(tokens)[i]
  {
    if tokens != [] {
      var stages, last := Split(tokens[..|tokens| - 1]), tokens[|tokens| - 1];
      var n := |stages| - 1;
      JoinSplit(tokens[..|tokens| - 1]);
      assert tokens == tokens[..|tokens| - 1] + [last];
      if last == "|" {
        JoinLast(stages, []);
        assert Join(stages) + ["|"] + [] == tokens;
      } else {
        JoinReplace(stages[..n], stages[n], last);
        assert stages == stages[..n] + [stages[n]];
      }
    }
  }

  lemma JoinLast(stages: seq<seq<string>>, last: seq<string>)
    requires stages != []
    ensures Join(stages + [last]) == Join(stages) + ["|"] + last
  {
    assert (stages + [last])[..|stages|] == stages;
  }

  lemma JoinReplace(front: seq<seq<string>>, last: seq<string>, token: string)
    ensures Join(front + [last + [token]]) == Join(front + [last]) + [token]
  {
    if front == [] {
      assert front + [last] == [last] && front + [last + [token]] == [last + [token]];
    } else {
      JoinLast(front, last);
      JoinLast(front, last + [token]);
    }
  }

  lemma {:induction false} NoBars(items: seq<Item>, first: bool, last: bool)
    requires AllProper(items, first, last)
    ensures "|" !in RenderStage(items)
  {
    if items != [] {
      NoBars(items[1..], first, last);
      assert Proper(items[0], first, last) && "|" !in Tokens(items[0]);
    }
  }

  /** Parsing one item. */
  lemma ParseItem(stage: seq<string>, pos: nat, item: Item, first: bool, last: bool,
                  argv: seq<string>, red: Redirects)
    requires Proper(item, first, last) && pos + |Tokens(item)| <= |stage|
    requires forall k | 0 <= k < |Tokens(item)| :: stage[pos + k] == Tokens(item)[k]
    ensures ParseFrom(stage, pos, first, last, argv, red) ==
            ParseFrom(stage, pos + |Tokens(item)|, first, last, argv + Words(item), Effect(item, red))
  {
    assert stage[pos + 0] == Tokens(item)[0];
    if !item.Arg? {
      assert stage[pos + 1] == Tokens(item)[1] && argv + [] == argv;
    }
  }

  lemma ItemAhead(stage: seq<string>, pos: nat, tokens: seq<string>, rest: seq<string>)
    requires pos <= |stage| && stage[pos..] == tokens + rest
    ensures pos + |tokens| <= |stage| && stage[pos + |tokens|..] == rest
    ensures forall k | 0 <= k < |tokens| :: stage[pos + k] == tokens[k]
  {
    var tail := stage[pos..];
    assert |tail| == |tokens| + |rest|;
    assert stage[pos + |tokens|..] == tail[|tokens|..];
    forall k | 0 <= k < |tokens| ensures stage[pos + k] == tokens[k] {
      assert tail[k] == (tokens + rest)[k];
    }
  }

  lemma ArgsStep(argv: seq<string>, items: seq<Item>)
    requires items != []
    ensures argv + Args(items) == (argv + Words(items[0])) + Args(items[1..])
  {
  }

  function Outcome(argv: seq<string>, red: Redirects): Result<(seq<string>, Redirects), ParseError> {
    if argv == [] then Err(InvalidCommand) else Ok((argv, red))
  }

  lemma ParseStep(stage: seq<string>, pos: nat, items: seq<Item>, first: bool, last: bool,
                  argv: seq<string>, red: Redirects, next: nat)
    requires pos <= |stage| && items != [] && stage[pos..] == RenderStage(items) && next == pos + |Tokens(items[0])|
    requires AllProper(items, first, last)
    ensures next <= |stage| && stage[next..] == RenderStage(items[1..]) && AllProper(items[1..], first, last)
    ensures ParseFrom(stage, pos, first, last, argv, red) ==
            ParseFrom(stage, next, first, last, argv + Words(items[0]), Effect(items[0], red))
  {
    ItemAhead(stage, pos, Tokens(items[0]), RenderStage(items[1..]));
    ParseItem(stage, pos, items[0], first, last, argv, red);
  }

  /** Parsing what is left of a stage, when that is a rendering of items. */
  lemma {:induction false} ParseRendered(stage: seq<string>, pos: nat, items: seq<Item>, first: bool, last: bool,
                                         argv: seq<string>, red: Redirects)
    requires pos <= |stage| && stage[pos..] == RenderStage(items) && AllProper(items, first, last)
    ensures ParseFrom(stage, pos, first, last, argv, red) == Outcome(argv + Args(items), Redirections(items, red))
    decreases |items|
  {
    if items == [] {
      assert argv + [] == argv;
    } else {
      var next := pos + |Tokens(items[0])|;
      ParseStep(stage, pos, items, first, last, argv, red, next);
      ArgsStep(argv, items);
      ParseRendered(stage, next, items[1..], first, last, argv + Words(items[0]), Effect(items[0], red));
    }
  }

  lemma {:induction false} StagesRendered(stages: seq<seq<Item>>, index: nat)
    requires ProperPipeline(stages) && index <= |stages|
    ensures var sofar := Meaning(stages[..index]);
            ParseStages(RenderAll(stages), index, sofar.stages, sofar.redirects) == Ok(Meaning(stages))
    decreases |stages| - index
  {
    if index == |stages| {
      assert stages[..index] == stages;
    } else {
      var items, sofar := stages[index], Meaning(stages[..index]);
      var stage := RenderAll(stages)[index];
      assert ProperStage(items, index == 0, index == |stages| - 1);
      assert stage[0..] == RenderStage(items);
      ParseRendered(stage, 0, items, index == 0, index == |stages| - 1, [], sofar.redirects);
      assert [] + Args(items) == Args(items);
      assert stages[..index + 1][..index] == stages[..index];
      StagesRendered(stages, index + 1);
    }
  }

  lemma RenderedStages(stages: seq<seq<Item>>)
    requires ProperPipeline(stages)
    ensures Split(Render(stages)) == RenderAll(stages) && [] !in RenderAll(stages)
  {
    forall i | 0 <= i < |stages|
      ensures "|" !in RenderAll(stages)[i] && RenderAll(stages)[i] != []
    {
      assert ProperStage(stages[i], i == 0, i == |stages| - 1);
      NoBars(stages[i], i == 0, i == |stages| - 1);
    }
    SplitJoin(RenderAll(stages));
  }

  /** Any pipeline, its redirections anywhere among the arguments of their stages
      and as often as one likes, is parsed back to what it means. */
  lemma RenderThenParse(stages: seq<seq<Item>>)
    requires ProperPipeline(stages)
    ensures Parse(Render(stages)) == Ok(Meaning(stages))
  {
    RenderedStages(stages);
    assert stages[..0] == [];
    StagesRendered(stages, 0);
  }

  // ------------------------------------------------- from plan to rendering

  /** The items a stage is the rendering of. */
  function ItemsOf(stage: seq<string>): seq<Item> {
    if stage == [] then []
    else if IsRedirect(stage[0]) && |stage| >= 2 then
      [if stage[0] == "<" then In(stage[1]) else Out(stage[1], stage[0] == ">>")] + ItemsOf(stage[2..])
    else [Arg(stage[0])] + ItemsOf(stage[1..])
  }

  lemma OneMoreItem(item: Item, rest: seq<Item>, tokens: seq<string>, first: bool, last: bool)
    requires RenderStage(rest) == tokens && AllProper(rest, first, last) && Proper(item, first, last)
    ensures RenderStage([item] + rest) == Tokens(item) + tokens && AllProper([item] + rest, first, last)
  {
    assert ([item] + rest)[1..] == rest;
  }

  function ItemAt(stage: seq<string>): Item
    requires |stage| >= 2
  {
    if stage[0] == "<" then In(stage[1]) else Out(stage[1], stage[0] == ">>")
  }

  lemma RedirectTokens(operator: string, target: string)
    requires IsRedirect(operator)
    ensures Tokens(ItemAt([operator, target])) == [operator, target]
  {
  }

  lemma RedirectProper(red: Redirects, operator: string, target: string, first: bool, last: bool)
    requires IsRedirect(operator) && target != "|" && Redirected(red, operator, target, first, last).Some?
    ensures Proper(ItemAt([operator, target]), first, last)
  {
  }

  lemma ItemsOfPair(tail: seq<string>)
    requires |tail| >= 2 && IsRedirect(tail[0])
    ensures ItemsOf(tail) == [ItemAt(tail)] + ItemsOf(tail[2..])
  {
  }

  lemma FirstTwo(tail: seq<string>)
    requires |tail| >= 2
    ensures tail == [tail[0], tail[1]] + tail[2..] && ItemAt(tail) == ItemAt([tail[0], tail[1]])
  {
  }

  /** What an accepted redirection, or an argument, is in the rendering. */
  lemma ItemsOfRedirect(tail: seq<string>, red: Redirects, first: bool, last: bool)
    requires |tail| >= 2 && IsRedirect(tail[0]) && "|" !in tail
    requires Redirected(red, tail[0], tail[1], first, last).Some?
    ensures ItemsOf(tail) == [ItemAt(tail)] + ItemsOf(tail[2..]) && Proper(ItemAt(tail), first, last)
    ensures tail == Tokens(ItemAt(tail)) + tail[2..]
  {
    var operator, target := tail[0], tail[1];
    FirstTwo(tail);
    ItemsOfPair(tail);
    RedirectTokens(operator, target);
    RedirectProper(red, operator, target, first, last);
  }

  lemma ItemsOfArgument(tail: seq<string>, first: bool, last: bool)
    requires tail != [] && !IsRedirect(tail[0]) && "|" !in tail
    ensures ItemsOf(tail) == [Arg(tail[0])] + ItemsOf(tail[1..]) && Proper(Arg(tail[0]), first, last)
    ensures tail == Tokens(Arg(tail[0])) + tail[1..]
  {
  }

  /** A stage that parses is the rendering of proper items. */
  lemma {:induction false} ParsedStage(stage: seq<string>, pos: nat, first: bool, last: bool,
                                       argv: seq<string>, red: Redirects)
    requires pos <= |stage| && "|" !in stage
    requires ParseFrom(stage, pos, first, last, argv, red).Ok?
    ensures RenderStage(ItemsOf(stage[pos..])) == stage[pos..]
    ensures AllProper(ItemsOf(stage[pos..]), first, last)
    decreases |stage| - pos
  {
    if pos < |stage| {
      var tail, token := stage[pos..], stage[pos];
      if IsRedirect(token) {
        ParsedStage(stage, pos + 2, first, last, argv, Redirected(red, token, stage[pos + 1], first, last).value);
        assert tail[2..] == stage[pos + 2..];
        ItemsOfRedirect(tail, red, first, last);
        OneMoreItem(ItemAt(tail), ItemsOf(tail[2..]), tail[2..], first, last);
      } else {
        ParsedStage(stage, pos + 1, first, last, argv + [token], red);
        assert tail[1..] == stage[pos + 1..];
        ItemsOfArgument(tail, first, last);
        OneMoreItem(Arg(token), ItemsOf(tail[1..]), tail[1..], first, last);
      }
    }
  }

  /** The stage is the rendering of a proper one. */
  predicate Fits(stage: seq<string>, first: bool, last: bool) {
    RenderStage(ItemsOf(stage)) == stage && ProperStage(ItemsOf(stage), first, last)
  }

  lemma ParsedWhole(stage: seq<string>, first: bool, last: bool, red: Redirects)
    requires "|" !in stage && ParseFrom(stage, 0, first, last, [], red).Ok?
    ensures Fits(stage, first, last)
  {
    var items := ItemsOf(stage);
    assert stage[0..] == stage;
    ParsedStage(stage, 0, first, last, [], red);
    ParseRendered(stage, 0, items, first, last, [], red);
    assert [] + Args(items) == Args(items);
  }

  function ItemsOfAll(stages: seq<seq<string>>): (r: seq<seq<Item>>)
    ensures |r| == |stages|
  {
    seq(|stages|, i requires 0 <= i < |stages| => ItemsOf(stages[i]))
  }

  lemma ParsedStep(stages: seq<seq<string>>, index: nat, cleaned: seq<seq<string>>, red: Redirects)
    returns (next: seq<seq<string>>, after: Redirects)
    requires index < |stages| && ParseStages(stages, index, cleaned, red).Ok?
    ensures ParseFrom(stages[index], 0, index == 0, index == |stages| - 1, [], red).Ok?
    ensures ParseStages(stages, index + 1, next, after).Ok?
  {
    var r := ParseFrom(stages[index], 0, index == 0, index == |stages| - 1, [], red);
    next, after := cleaned + [r.value.0], r.value.1;
  }

  /** When the remaining stages parse, each is the rendering of a proper stage. */
  lemma {:induction false} ParsedStages(stages: seq<seq<string>>, index: nat, cleaned: seq<seq<string>>, red: Redirects,
                                        i: nat)
    requires forall k | 0 <= k < |stages| :: "|" !in stages[k]
    requires index <= i < |stages| && ParseStages(stages, index, cleaned, red).Ok?
    ensures Fits(stages[i], i == 0, i == |stages| - 1)
    decreases |stages| - index
  {
    var next, after := ParsedStep(stages, index, cleaned, red);
    if i > index {
      ParsedStages(stages, index + 1, next, after, i);
    } else {
      ParsedWhole(stages[i], i == 0, i == |stages| - 1, red);
    }
  }

  lemma RenderedBack(split: seq<seq<string>>)
    requires split != [] && forall k | 0 <= k < |split| :: "|" !in split[k]
    requires ParseStages(split, 0, [], NO_REDIRECTS).Ok?
    ensures ProperPipeline(ItemsOfAll(split)) && RenderAll(ItemsOfAll(split)) == split
  {
    var stages := ItemsOfAll(split);
    forall i | 0 <= i < |split|
      ensures RenderAll(stages)[i] == split[i]
      ensures ProperStage(stages[i], i == 0, i == |stages| - 1)
    {
      ParsedStages(split, 0, [], NO_REDIRECTS, i);
    }
  }

  /** What parses is a rendering, and parses to what that means. */
  lemma ParseThenRender(tokens: seq<string>)
    requires Parse(tokens).Ok?
    ensures var stages := ItemsOfAll(Split(tokens));
            ProperPipeline(stages) && Render(stages) == tokens && Meaning(stages) == Parse(tokens).value
  {
    JoinSplit(tokens);
    RenderedBack(Split(tokens));
    RenderThenParse(ItemsOfAll(Split(tokens)));
  }

  /** The parser accepts exactly the renderings of proper pipelines, and gives
      what they mean; everything else is an error. */
  lemma ParsesExactlyRenderings(tokens: seq<string>, plan: Plan)
    ensures Parse(tokens) == Ok(plan) <==>
            exists stages :: ProperPipeline(stages) && Render(stages) == tokens && Meaning(stages) == plan
  {
    if Parse(tokens) == Ok(plan) {
      ParseThenRender(tokens);
    }
    forall stages | ProperPipeline(stages) && Render(stages) == tokens && Meaning(stages) == plan
      ensures Parse(tokens) == Ok(plan)
    {
      RenderThenParse(stages);
    }
  }

  // ------------------------------------------------------------------ errors

  /** After the rendering of items, the parser is where they end. */
  lemma {:induction false} ParsePrefix(front: seq<string>, items: seq<Item>, tail: seq<string>, first: bool, last: bool,
                                       argv: seq<string>, red: Redirects)
    requires AllProper(items, first, last)
    ensures ParseFrom(front + RenderStage(items) + tail, |front|, first, last, argv, red) ==
            ParseFrom(front + RenderStage(items) + tail, |front + RenderStage(items)|, first, last,
                      argv + Args(items), Redirections(items, red))
    decreases |items|
  {
    if items == [] {
      assert front + [] == front && argv + [] == argv;
    } else {
      var tokens, rest := Tokens(items[0]), items[1..];
      FrontAhead(front, tokens, RenderStage(rest), tail);
      FirstAhead(front, items, tail, first, last, argv, red);
      ArgsStep(argv, items);
      ParsePrefix(front + tokens, rest, tail, first, last, argv + Words(items[0]), Effect(items[0], red));
    }
  }

  lemma FirstAhead(front: seq<string>, items: seq<Item>, tail: seq<string>, first: bool, last: bool,
                   argv: seq<string>, red: Redirects)
    requires items != [] && AllProper(items, first, last)
    ensures ParseFrom(front + RenderStage(items) + tail, |front|, first, last, argv, red) ==
            ParseFrom(front + RenderStage(items) + tail, |front + Tokens(items[0])|, first, last,
                      argv + Words(items[0]), Effect(items[0], red))
  {
    FrontAhead(front, Tokens(items[0]), RenderStage(items[1..]), tail);
    ParseItem(front + RenderStage(items) + tail, |front|, items[0], first, last, argv, red);
  }

  lemma FrontAhead(front: seq<string>, tokens: seq<string>, rest: seq<string>, tail: seq<string>)
    ensures front + (tokens + rest) + tail == (front + tokens) + rest + tail
    ensures front + (tokens + rest) == (front + tokens) + rest
    ensures var stage := front + (tokens + rest) + tail;
            |front| + |tokens| <= |stage| && forall k | 0 <= k < |tokens| :: stage[|front| + k] == tokens[k]
  {
  }

  /** What each error of a stage is raised for: an operator with nothing after it, one
      that stands where it may not, and a stage without arguments. */
  lemma StageErrors(items: seq<Item>, operator: string, target: string, rest: seq<string>, first: bool, last: bool,
                    red: Redirects)
    requires AllProper(items, first, last) && IsRedirect(operator)
    ensures ParseFrom(RenderStage(items) + [operator], 0, first, last, [], red) == Err(MissingTarget(operator))
    ensures (if operator == "<" then !first else !last) ==>
              ParseFrom(RenderStage(items) + ([operator, target] + rest), 0, first, last, [], red) == Err(NotAtEdge)
    ensures Args(items) == [] ==> ParseFrom(RenderStage(items), 0, first, last, [], red) == Err(InvalidCommand)
  {
    var r := RenderStage(items);
    PrefixErrors(items, [operator], first, last, red);
    PrefixErrors(items, [operator, target] + rest, first, last, red);
    PrefixErrors(items, [], first, last, red);
    assert r + [] == r;
    MissingAt(r + [operator], |r|, first, last, Args(items), Redirections(items, red));
    MisplacedAt(r + ([operator, target] + rest), |r|, first, last, Args(items), Redirections(items, red));
  }

  lemma PrefixErrors(items: seq<Item>, tail: seq<string>, first: bool, last: bool, red: Redirects)
    requires AllProper(items, first, last)
    ensures var r := RenderStage(items);
            ParseFrom(r + tail, 0, first, last, [], red) ==
            ParseFrom(r + tail, |r|, first, last, Args(items), Redirections(items, red))
  {
    ParsePrefix([], items, tail, first, last, [], red);
    assert [] + RenderStage(items) == RenderStage(items) && [] + Args(items) == Args(items);
  }

  lemma MissingAt(stage: seq<string>, pos: nat, first: bool, last: bool, argv: seq<string>, red: Redirects)
    requires pos + 1 == |stage| && IsRedirect(stage[pos])
    ensures ParseFrom(stage, pos, first, last, argv, red) == Err(MissingTarget(stage[pos]))
  {
  }

  lemma MisplacedAt(stage: seq<string>, pos: nat, first: bool, last: bool, argv: seq<string>, red: Redirects)
    requires pos + 1 < |stage| && IsRedirect(stage[pos])
    ensures (if stage[pos] == "<" then !first else !last) ==>
              ParseFrom(stage, pos, first, last, argv, red) == Err(NotAtEdge)
  {
  }

  lemma {:induction false} StagesNameNoPipeline(stages: seq<seq<string>>, index: nat, cleaned: seq<seq<string>>,
                                                red: Redirects)
    ensures ParseStages(stages, index, cleaned, red) != Err(InvalidPipeline)
    decreases |stages| - index
  {
    if index < |stages| {
      StageNamesNoPipeline(stages[index], 0, index == 0, index == |stages| - 1, [], red);
      var r := ParseFrom(stages[index], 0, index == 0, index == |stages| - 1, [], red);
      if r.Ok? {
        StagesNameNoPipeline(stages, index + 1, cleaned + [r.value.0], r.value.1);
      }
    }
  }

  lemma {:induction false} StageNamesNoPipeline(stage: seq<string>, pos: nat, first: bool, last: bool,
                                                argv: seq<string>, red: Redirects)
    ensures ParseFrom(stage, pos, first, last, argv, red) != Err(InvalidPipeline)
    decreases |stage| - pos
  {
    if pos < |stage| {
      if !IsRedirect(stage[pos]) {
        StageNamesNoPipeline(stage, pos + 1, first, last, argv + [stage[pos]], red);
      } else if pos + 1 < |stage| && Redirected(red, stage[pos], stage[pos + 1], first, last).Some? {
        StageNamesNoPipeline(stage, pos + 2, first, last, argv,
                             Redirected(red, stage[pos], stage[pos + 1], first, last).value);
      }
    }
  }

  /** A pipeline is invalid exactly when a stage is empty: nothing before, between or
      after its bars. */
  lemma EmptyStages(tokens: seq<string>)
    ensures Parse(tokens) == Err(InvalidPipeline) <==> [] in Split(tokens)
  {
    StagesNameNoPipeline(Split(tokens), 0, [], NO_REDIRECTS);
  }

  /** `cat < in | grep x > out` */
  lemma CatAndGrep()
    ensures Parse(["cat", "<", "in", "|", "grep", "x", ">", "out"]) ==
            Ok(Plan([["cat"], ["grep", "x"]], Redirects(Some("in"), Some("out"), false)))
  {
    var cat, grep := [Arg("cat"), In("in")], [Arg("grep"), Arg("x"), Out("out", false)];
    CatStage(cat);
    GrepStage(grep);
    TwoStages(cat, grep);
    RenderThenParse([cat, grep]);
    CatAndGrepTokens();
  }

  lemma CatAndGrepTokens()
    ensures ["cat", "<", "in"] + ["|"] + ["grep", "x", ">", "out"] == ["cat", "<", "in", "|", "grep", "x", ">", "out"]
  {
  }

  lemma TwoStages(a: seq<Item>, b: seq<Item>)
    ensures Render([a, b]) == RenderStage(a) + ["|"] + RenderStage(b)
    ensures Meaning([a, b]) == Plan([Args(a), Args(b)], Redirections(b, Redirections(a, NO_REDIRECTS)))
    ensures ProperStage(a, true, false) && ProperStage(b, false, true) ==> ProperPipeline([a, b])
  {
    assert RenderAll([a, b]) == [RenderStage(a), RenderStage(b)];
    JoinOfTwo(RenderStage(a), RenderStage(b));
    MeaningOfTwo(a, b);
  }

  lemma JoinOfTwo(a: seq<string>, b: seq<string>)
    ensures Join([a, b]) == a + ["|"] + b
  {
    JoinLast([a], b);
    assert [a] + [b] == [a, b];
  }

  lemma MeaningOfTwo(a: seq<Item>, b: seq<Item>)
    ensures Meaning([a, b]) == Plan([Args(a), Args(b)], Redirections(b, Redirections(a, NO_REDIRECTS)))
  {
    MeaningPush([], a);
    MeaningPush([a], b);
    assert [] + [a] == [a] && [a] + [b] == [a, b];
    assert [] + [Args(a)] == [Args(a)] && [Args(a)] + [Args(b)] == [Args(a), Args(b)];
  }

  lemma MeaningPush(front: seq<seq<Item>>, last: seq<Item>)
    ensures Meaning(front + [last]) ==
            Plan(Meaning(front).stages + [Args(last)], Redirections(last, Meaning(front).redirects))
  {
    assert (front + [last])[..|front|] == front;
  }

  /** One more item in front of a stage. */
  lemma FrontItem(item: Item, rest: seq<Item>)
    ensures RenderStage([item] + rest) == Tokens(item) + RenderStage(rest)
    ensures Args([item] + rest) == Words(item) + Args(rest)
    ensures forall red :: Redirections([item] + rest, red) == Redirections(rest, Effect(item, red))
  {
    assert ([item] + rest)[1..] == rest;
  }

  lemma CatStage(items: seq<Item>)
    requires items == [Arg("cat"), In("in")]
    ensures RenderStage(items) == ["cat", "<", "in"] && Args(items) == ["cat"] && ProperStage(items, true, false)
    ensures Redirections(items, NO_REDIRECTS) == Redirects(Some("in"), None, false)
  {
    FrontItem(In("in"), []);
    FrontItem(Arg("cat"), [In("in")]);
    assert items == [Arg("cat")] + [In("in")] && [In("in")] == [In("in")] + [];
    assert Proper(Arg("cat"), true, false) && Proper(In("in"), true, false);
  }

  lemma GrepStage(items: seq<Item>)
    requires items == [Arg("grep"), Arg("x"), Out("out", false)]
    ensures RenderStage(items) == ["grep", "x", ">", "out"] && Args(items) == ["grep", "x"]
    ensures ProperStage(items, false, true)
    ensures Redirections(items, Redirects(Some("in"), None, false)) == Redirects(Some("in"), Some("out"), false)
  {
    var out := Out("out", false);
    FrontItem(out, []);
    FrontItem(Arg("x"), [out]);
    FrontItem(Arg("grep"), [Arg("x"), out]);
    assert [out] == [out] + [] && [Arg("x"), out] == [Arg("x")] + [out];
    assert items == [Arg("grep")] + [Arg("x"), out];
    assert Proper(Arg("grep"), false, true) && Proper(Arg("x"), false, true) && Proper(out, false, true);
  }
}
