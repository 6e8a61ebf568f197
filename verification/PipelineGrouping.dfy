/** How the shell groups the words of a statement into the stages of a pipeline, and when its three vectors
    (commands, redirection lists, pipes) line up.
 */
module PipelineGrouping {
  datatype Token = Word(text: string) | Pipe | Input | Output

  function Text(t: Token): string {
    match t
    case Word(text) => text
    case Pipe => "|"
    case Input => "<"
    case Output => ">"
  }

  /** A redirection of descriptor 0 or 1 to the named file. */
  datatype Item = Plain(text: string) | Redirect(fd: int, file: string)

  type Stage = seq<Item>

  /** A redirection sign that is the last word leaves no file name to read. */
  predicate Readable(tokens: seq<Token>) {
    |tokens| > 1 ==> !tokens[|tokens| - 1].Input? && !tokens[|tokens| - 1].Output?
  }

  /** The stages of the first `n` tokens, the last one still open. A redirection sign in the very first place
      is passed over. */
  function Stages(tokens: seq<Token>, n: nat): (r: seq<Stage>)
    requires n <= |tokens| && Readable(tokens)
    ensures r != []
    decreases n
  {
    if n == 0 then [[]]
    else
      var before, t := Stages(tokens, n - 1), tokens[n - 1];
      if t.Pipe? then before + [[]]
      else if t.Word? then Extend(before, Plain(t.text))
      else if n == 1 then before
      else Extend(before, Redirect(if t.Input? then 0 else 1, Text(tokens[n])))
  }

  function Extend(stages: seq<Stage>, item: Item): (r: seq<Stage>)
    requires stages != []
    ensures |r| == |stages|
  {
    stages[|stages| - 1 := stages[|stages| - 1] + [item]]
  }

  /** The words in front of the first redirection: what the stage runs. */
  function Lead(s: Stage): seq<string> {
    if s == [] || s[0].Redirect? then [] else [s[0].text] + Lead(s[1..])
  }

  function Redirections(s: Stage): seq<Item> {
    if s == [] then []
    else if s[0].Redirect? then [s[0]] + Redirections(s[1..])
    else Redirections(s[1..])
  }

  /** The commands pushed for a stage: its own at the first redirection, an empty one at each further. */
  function Pushed(s: Stage): seq<seq<string>> {
    var r := |Redirections(s)|;
    if r == 0 then [] else [Lead(s)] + seq(r - 1, _ => [])
  }

  /** The same once the stage is closed. */
  function Commands(s: Stage): seq<seq<string>> {
    if Redirections(s) == [] then [Lead(s)] else Pushed(s)
  }

  function AllCommands(stages: seq<Stage>): seq<seq<string>> {
    if stages == [] then [] else AllCommands(stages[..|stages| - 1]) + Commands(stages[|stages| - 1])
  }

  function AllRedirections(stages: seq<Stage>): (r: seq<seq<Item>>)
    ensures |r| == |stages|
    ensures forall k :: 0 <= k < |stages| ==> r[k] == Redirections(stages[k])
  {
    if stages == [] then []
    else AllRedirections(stages[..|stages| - 1]) + [Redirections(stages[|stages| - 1])]
  }

  lemma {:induction false} RedirectionsGrow(s: Stage, item: Item)
    ensures item.Redirect? ==> Redirections(s + [item]) == Redirections(s) + [item]
    ensures item.Plain? ==> Redirections(s + [item]) == Redirections(s)
  {
    if s == [] {
      assert s + [item] == [item] && [item][1..] == [];
    } else {
      RedirectionsGrow(s[1..], item);
      assert (s + [item])[1..] == s[1..] + [item];
    }
  }

  lemma {:induction false} LeadGrows(s: Stage, item: Item)
    ensures Redirections(s) == [] && item.Plain? ==> Lead(s + [item]) == Lead(s) + [item.text]
    ensures Redirections(s) != [] || item.Redirect? ==> Lead(s + [item]) == Lead(s)
  {
    if s == [] {
      assert s + [item] == [item] && [item][1..] == [];
    } else {
      LeadGrows(s[1..], item);
      assert (s + [item])[1..] == s[1..] + [item];
    }
  }

  lemma StageGrows(s: Stage, item: Item)
    ensures Redirections(s + [item]) == Redirections(s) + if item.Redirect? then [item] else []
    ensures Redirections(s) == [] && item.Plain? ==> Lead(s + [item]) == Lead(s) + [item.text]
    ensures Redirections(s) != [] || item.Redirect? ==> Lead(s + [item]) == Lead(s)
  {
    hide Redirections, Lead;
    RedirectionsGrow(s, item);
    LeadGrows(s, item);
  }

  /** What the next item pushes. */
  lemma PushedGrows(s: Stage, item: Item)
    ensures item.Plain? ==> Pushed(s + [item]) == Pushed(s)
    ensures item.Redirect? ==> Pushed(s + [item]) == Pushed(s) + [if Redirections(s) == [] then Lead(s) else []]
  {
    StageGrows(s, item);
  }

  /** The loop's variables after reading `stages`, the last of them still open. */
  ghost predicate Gathered(stages: seq<Stage>, complete: seq<seq<string>>, redirDups: seq<seq<Item>>,
                           dupList: seq<Item>, pushed: bool, command: seq<string>)
    requires stages != []
  {
    var front, s := stages[..|stages| - 1], stages[|stages| - 1];
    && complete == AllCommands(front) + Pushed(s)
    && redirDups == AllRedirections(front)
    && dupList == Redirections(s)
    && pushed == (Redirections(s) != [])
    && command == (if pushed then [] else Lead(s))
  }

  /** The stage is closed. */
  lemma Closes(stages: seq<Stage>, complete: seq<seq<string>>, redirDups: seq<seq<Item>>, dupList: seq<Item>,
               pushed: bool, command: seq<string>)
    requires stages != [] && Gathered(stages, complete, redirDups, dupList, pushed, command)
    ensures AllCommands(stages) == if pushed then complete else complete + [command]
    ensures AllRedirections(stages) == redirDups + [dupList]
  {
  }

  /** The stage is closed and the next one opened. */
  lemma GathersPipe(stages: seq<Stage>, complete: seq<seq<string>>, redirDups: seq<seq<Item>>, dupList: seq<Item>,
                    pushed: bool, command: seq<string>)
    requires stages != [] && Gathered(stages, complete, redirDups, dupList, pushed, command)
    ensures Gathered(stages + [[]], if pushed then complete else complete + [command], redirDups + [dupList], [],
                     false, [])
  {
    hide AllCommands, AllRedirections, Redirections, Lead, Pushed;
    Closes(stages, complete, redirDups, dupList, pushed, command);
    NothingYet();
    assert (stages + [[]])[..|stages|] == stages;
  }

  /** One more item. */
  lemma GathersItem(stages: seq<Stage>, item: Item, complete: seq<seq<string>>, redirDups: seq<seq<Item>>,
                    dupList: seq<Item>, pushed: bool, command: seq<string>)
    requires stages != [] && Gathered(stages, complete, redirDups, dupList, pushed, command)
    ensures item.Redirect? ==>
      Gathered(Extend(stages, item), complete + [command], redirDups, dupList + [item], true, [])
    ensures item.Plain? ==>
      Gathered(Extend(stages, item), complete, redirDups, dupList, pushed,
               if pushed then command else command + [item.text])
  {
    hide AllCommands, AllRedirections, Redirections, Lead, Pushed;
    var s := stages[|stages| - 1];
    StageGrows(s, item);
    PushedGrows(s, item);
    assert Extend(stages, item)[..|stages| - 1] == stages[..|stages| - 1];
  }

  /** The grouping loop. */
  method Group(tokens: seq<Token>)
    returns (complete: seq<seq<string>>, redirDups: seq<seq<Item>>, pipes: nat)
    requires Readable(tokens)
    ensures complete == AllCommands(Stages(tokens, |tokens|))
    ensures redirDups == AllRedirections(Stages(tokens, |tokens|))
    ensures pipes + 1 == |redirDups|
  {
    hide AllCommands, AllRedirections, Gathered, Extend;
    complete, redirDups, pipes := [], [], 0;
    var singleCommand: seq<string> := [];
    var singleDupList: seq<Item> := [];
    var alreadyPushedCmd := false;
    GatheredNothing();
    for n := 0 to |tokens|
      invariant Gathered(Stages(tokens, n), complete, redirDups, singleDupList, alreadyPushedCmd, singleCommand)
      invariant pipes + 1 == |Stages(tokens, n)|
      invariant alreadyPushedCmd ==> singleCommand == []
    {
      ghost var stages := Stages(tokens, n);
      if tokens[n].Pipe? {
        GathersPipe(stages, complete, redirDups, singleDupList, alreadyPushedCmd, singleCommand);
        if !alreadyPushedCmd {
          complete := complete + [singleCommand];
          singleCommand := [];
        } else {
          alreadyPushedCmd := false;
        }
        pipes := pipes + 1;
        redirDups := redirDups + [singleDupList];
        singleDupList := [];
      } else if tokens[n].Input? && n > 0 {
        var dup := Redirect(0, Text(tokens[n + 1]));
        GathersItem(stages, dup, complete, redirDups, singleDupList, alreadyPushedCmd, singleCommand);
        complete := complete + [singleCommand];
        singleCommand := [];
        singleDupList := singleDupList + [dup];
        alreadyPushedCmd := true;
      } else if tokens[n].Output? && n > 0 {
        var dup := Redirect(1, Text(tokens[n + 1]));
        GathersItem(stages, dup, complete, redirDups, singleDupList, alreadyPushedCmd, singleCommand);
        complete := complete + [singleCommand];
        singleCommand := [];
        singleDupList := singleDupList + [dup];
        alreadyPushedCmd := true;
      } else if tokens[n].Word? {
        GathersItem(stages, Plain(tokens[n].text), complete, redirDups, singleDupList, alreadyPushedCmd,
          singleCommand);
        if !alreadyPushedCmd {
          singleCommand := singleCommand + [tokens[n].text];
        }
      }
    }
    Closes(Stages(tokens, |tokens|), complete, redirDups, singleDupList, alreadyPushedCmd, singleCommand);
    redirDups := redirDups + [singleDupList];
    if !alreadyPushedCmd {
      complete := complete + [singleCommand];
    }
  }

  lemma GatheredNothing()
    ensures Gathered([[]], [], [], [], false, [])
  {
  }

  lemma NothingYet()
    ensures Lead([]) == [] && Redirections([]) == [] && Pushed([]) == []
    ensures AllCommands([]) == [] && AllRedirections([]) == []
  {
  }

  /** Every stage names its redirection at most once. */
  predicate Single(stages: seq<Stage>) {
    forall k :: 0 <= k < |stages| ==> |Redirections(stages[k])| <= 1
  }

  lemma SingleOneMore(stages: seq<Stage>)
    requires stages != []
    ensures Single(stages) <==>
            Single(stages[..|stages| - 1]) && |Redirections(stages[|stages| - 1])| <= 1
  {
    hide Redirections;
    var front, s := stages[..|stages| - 1], stages[|stages| - 1];
    if Single(stages) {
      forall k | 0 <= k < |front| ensures |Redirections(front[k])| <= 1 {
        assert front[k] == stages[k];
      }
    }
    if Single(front) && |Redirections(s)| <= 1 {
      forall k | 0 <= k < |stages| ensures |Redirections(stages[k])| <= 1 {
        assert k < |front| ==> front[k] == stages[k];
      }
    }
  }

  /** There are never fewer commands than stages, and exactly as many when no stage redirects twice; then the
      k-th command is what the k-th stage runs. */
  lemma {:induction false} CommandsPerStage(stages: seq<Stage>)
    ensures |AllCommands(stages)| >= |stages|
    ensures |AllCommands(stages)| == |stages| <==> Single(stages)
    ensures Single(stages) ==> forall k :: 0 <= k < |stages| ==> AllCommands(stages)[k] == Lead(stages[k])
  {
    if stages != [] {
      var front, s := stages[..|stages| - 1], stages[|stages| - 1];
      CommandsPerStage(front);
      assert |Commands(s)| == if |Redirections(s)| <= 1 then 1 else |Redirections(s)|;
      SingleOneMore(stages);
    }
  }

  /** How many commands too many the stages push: one for each redirection after a stage's first. */
  function Extra(stages: seq<Stage>): nat {
    if stages == [] then 0
    else
      var r := |Redirections(stages[|stages| - 1])|;
      Extra(stages[..|stages| - 1]) + if r > 1 then r - 1 else 0
  }

  /** The words of stage j stand behind its own number of commands, one later for each redirection too many in
      front of it. */
  lemma {:induction false} CommandPlace(stages: seq<Stage>, j: nat)
    requires j < |stages|
    ensures |AllCommands(stages)| == |stages| + Extra(stages)
    ensures j + Extra(stages[..j]) < |AllCommands(stages)|
    ensures AllCommands(stages)[j + Extra(stages[..j])] == Lead(stages[j])
  {
    hide Redirections, Lead;
    var front, s := stages[..|stages| - 1], stages[|stages| - 1];
    ExtraCommands(front);
    ExtraCommands(stages);
    assert Commands(s)[0] == Lead(s);
    if j < |front| {
      CommandPlace(front, j);
      assert front[..j] == stages[..j];
    }
  }

  lemma {:induction false} ExtraCommands(stages: seq<Stage>)
    ensures |AllCommands(stages)| == |stages| + Extra(stages)
  {
    hide Redirections, Lead;
    if stages != [] {
      ExtraCommands(stages[..|stages| - 1]);
    }
  }

  /** So a stage's words are at its own place exactly when no stage in front of it redirects twice. */
  lemma {:induction false} NothingExtraIff(stages: seq<Stage>)
    ensures Extra(stages) == 0 <==> Single(stages)
  {
    hide Redirections;
    if stages != [] {
      NothingExtraIff(stages[..|stages| - 1]);
      SingleOneMore(stages);
    }
  }

  /** The vectors line up exactly when no stage has two redirections. */
  lemma VectorsAlignIff(tokens: seq<Token>)
    requires Readable(tokens)
    ensures var stages := Stages(tokens, |tokens|);
      && |AllRedirections(stages)| == |stages|
      && (|AllCommands(stages)| == |AllRedirections(stages)| <==> Single(stages))
  {
    CommandsPerStage(Stages(tokens, |tokens|));
  }

  /** Reading and writing files in one stage already breaks the alignment: the second redirection starts a
      command of no words, and there is no redirection list for it. */
  lemma TwoRedirectionsMisalign(c: string, i: string, o: string)
    ensures var tokens := [Word(c), Input, Word(i), Output, Word(o)];
      && Readable(tokens)
      && AllCommands(Stages(tokens, |tokens|)) == [[c], []]
      && |AllRedirections(Stages(tokens, |tokens|))| == 1
  {
    var tokens := [Word(c), Input, Word(i), Output, Word(o)];
    var s := [Plain(c), Redirect(0, i), Plain(i), Redirect(1, o), Plain(o)];
    forall k | 0 <= k < 5 ensures Extend([s[..k]], s[k]) == [s[..k + 1]] {
      assert s[..k] + [s[k]] == s[..k + 1];
    }
    assert Stages(tokens, 0) == [s[..0]];
    assert Stages(tokens, 1) == [s[..1]];
    assert Stages(tokens, 2) == [s[..2]];
    assert Stages(tokens, 3) == [s[..3]];
    assert Stages(tokens, 4) == [s[..4]];
    assert Stages(tokens, 5) == [s[..5]];
    assert s[..5] == s;
    assert s[1..][0] == Redirect(0, i) && s[2..][0] == Plain(i) && s[3..][0] == Redirect(1, o) && s[4..] == [Plain(o)];
    assert Lead(s) == [c];
    assert Redirections(s[4..]) == [];
    assert Redirections(s[3..]) == [s[3]] by { assert s[3..][1..] == s[4..]; }
    assert Redirections(s[2..]) == [s[3]] by { assert s[2..][1..] == s[3..]; }
    assert Redirections(s[1..]) == [s[1], s[3]] by { assert s[1..][1..] == s[2..]; }
    assert Redirections(s) == [s[1], s[3]];
    assert Commands(s) == [[c], []];
    assert AllCommands([s][..0]) == [];
    assert AllCommands([s]) == Commands(s);
  }
}
