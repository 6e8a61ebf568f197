/** A whole statement: its words grouped into stages, and every command started with the two pipe ends and the
    redirections of its place, which are those of its stage as long as the vectors line up.
 */
module PipelineStatement {
  import opened PipelineGrouping
  import opened PipelineWiring

  /** A child that runs its command with these descriptors, or one that finds no list of redirections for it and
      dies of that. */
  datatype Child = Runs(command: seq<string>, table: Descriptors) | Dies

  /** The descriptors opened for the redirections: one for each, onto the descriptor it names. */
  predicate OpenedFor(dups: seq<seq<Dup>>, redirDups: seq<seq<Item>>) {
    && |dups| == |redirDups|
    && forall k :: 0 <= k < |dups| ==>
      && |dups[k]| == |redirDups[k]|
      && forall j :: 0 <= j < |dups[k]| ==> redirDups[k][j].Redirect? && dups[k][j].to == redirDups[k][j].fd
  }

  /** Runs a statement. `t` is the shell's table with the pipes `ipc` open, `dups` what opening the files gave.
      Child k runs the k-th command with the pipe ends and redirections of stage k, whichever stage the command is
      from. */
  method ExecStatement(tokens: seq<Token>, t: Descriptors, ipc: seq<PipeFds>, dups: seq<seq<Dup>>)
    returns (children: seq<Child>, shell: Descriptors)
    requires Readable(tokens)
    requires Opened(t, ipc) && |ipc| + 1 == |Stages(tokens, |tokens|)|
    requires OpenedFor(dups, AllRedirections(Stages(tokens, |tokens|)))
    requires forall k :: 0 <= k < |dups| ==> FromFiles(t, dups[k])
    ensures var stages := Stages(tokens, |tokens|);
      && |children| == |AllCommands(stages)| == |stages| + Extra(stages)
      && forall k :: 0 <= k < |children| ==>
        if k < |stages| then Started(children[k], AllCommands(stages)[k], t, ipc, k, dups[k]) else children[k] == Dies
    ensures forall k :: !Holds(shell, WriteEnd(k)) && !Holds(shell, ReadEnd(k))
  {
    hide Opened, FromFiles, Placed, Holds, Lead, Redirections, AllCommands, Stages;
    var complete, redirDups, pipes := Group(tokens);
    ExtraCommands(Stages(tokens, |tokens|));
    var tables;
    tables, shell := Launch(t, ipc, dups);
    children := [];
    for k := 0 to |complete|
      invariant |children| == k
      invariant forall j :: 0 <= j < k ==> children[j] == if j < |tables| then Runs(complete[j], tables[j]) else Dies
    {
      children := children + [if k < |tables| then Runs(complete[k], tables[k]) else Dies];
    }
  }

  ghost predicate Started(child: Child, command: seq<string>, t: Descriptors, ipc: seq<PipeFds>, k: nat,
                          dups: seq<Dup>)
  {
    child.Runs? && child.command == command && Placed(child.table, t, ipc, k, dups)
  }

  /** Stage j's words are run by the child as many places later as redirections were too many in front of it; they
      get another stage's pipe ends and redirections, or none at all, exactly when there was one. */
  lemma WordsOfStage(stages: seq<Stage>, j: nat) returns (k: nat)
    requires j < |stages|
    ensures j <= k < |AllCommands(stages)| && AllCommands(stages)[k] == Lead(stages[j])
    ensures k == j + Extra(stages[..j]) && (k == j <==> Single(stages[..j]))
  {
    hide AllCommands, Extra, Single;
    CommandPlace(stages, j);
    NothingExtraIff(stages[..j]);
    k := j + Extra(stages[..j]);
  }

  /** A statement none of whose stages redirects twice runs every stage with what belongs to it. */
  lemma AlignedStatement(stages: seq<Stage>, children: seq<Child>, t: Descriptors, ipc: seq<PipeFds>,
                         dups: seq<seq<Dup>>)
    requires Single(stages) && |dups| == |stages|
    requires |children| == |AllCommands(stages)| == |stages| + Extra(stages)
    requires forall k :: 0 <= k < |stages| ==> Started(children[k], AllCommands(stages)[k], t, ipc, k, dups[k])
    ensures |children| == |stages|
    ensures forall k :: 0 <= k < |stages| ==> Started(children[k], Lead(stages[k]), t, ipc, k, dups[k])
  {
    hide Started, Extra, AllCommands, Lead, Single;
    CommandsPerStage(stages);
    NothingExtraIff(stages);
  }
}
