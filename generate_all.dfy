/*
 * The experiment sweeper of the testbed scripts (generateAll.py).
 *
 * The filesystem is a snapshot: the set of paths that exist.  Console output
 * and the external `python ...` invocations are recorded, in order, as a
 * trace of actions.  The external programs are not modelled; their exit
 * statuses are not an input, so nothing in the trace can depend on them.
 */
module ExperimentSweep {

  type Path = seq<char>

  /** Python's os.path.join for two POSIX path components. */
  function Join(a: Path, b: Path): Path
  {
    if |b| > 0 && b[0] == '/' then b
    else if a == [] || a[|a| - 1] == '/' then a + b
    else a + "/" + b
  }

  /** What the sweeper decides for one directory. */
  datatype Status = NotExperiment | Ongoing | AlreadyDone | Pending

  /**
   * One observable step: a print (with or without its line end) or an
   * os.system call.  `print path,` is Print(path, false): Python 2 then sets
   * softspace, so the next print writes a space before its text.  The trace
   * records the texts and line ends, not that space.
   */
  datatype Action = Print(text: string, newline: bool) | System(command: string)

  predicate HasLog(fs: set<Path>, path: Path) { Join(path, "log.txt") in fs }
  predicate IsOngoing(fs: set<Path>, path: Path) { Join(path, "ongoing") in fs }
  predicate IsDone(fs: set<Path>, path: Path) { Join(path, "plots/allplots.pdf") in fs }

  /** The if/continue chain: first match wins, in the order log, ongoing, done. */
  function Classify(fs: set<Path>, path: Path): Status
  {
    if !HasLog(fs, path) then NotExperiment
    else if IsOngoing(fs, path) then Ongoing
    else if IsDone(fs, path) then AlreadyDone
    else Pending
  }

  function ExtractCommand(path: Path): string
  {
    "python extractFromTrace.py " + path + " > /dev/null"
  }

  function PlotCommand(path: Path): string
  {
    "python generateSummaryPlots.py " + path + " > /dev/null"
  }

  const Header: Action := Print("Looping over all experiments", true)

  /** The actions the loop body performs for one listed name. */
  function EntryActions(fs: set<Path>, dir: Path, name: Path): seq<Action>
  {
    var path := Join(dir, name);
    [Print(path, false)] +
    match Classify(fs, path)
    case NotExperiment => [Print(" not an experiment directory.", true)]
    case Ongoing => [Print(" is ongoing", true)]
    case AlreadyDone => [Print(" already done.", true)]
    case Pending =>
      [Print(" extracting data...", false), System(ExtractCommand(path)),
       Print(" generating plots...", false), System(PlotCommand(path)),
       Print(" done.", true)]
  }

  /** The actions for a whole listing, entry after entry. */
  function SweepActions(fs: set<Path>, dir: Path, listing: seq<Path>): seq<Action>
  {
    if listing == [] then []
    else SweepActions(fs, dir, listing[..|listing| - 1]) + EntryActions(fs, dir, listing[|listing| - 1])
  }

  /** The external commands of a trace, in order. */
  function Commands(trace: seq<Action>): seq<string>
  {
    if trace == [] then []
    else (if trace[0].System? then [trace[0].command] else []) + Commands(trace[1..])
  }

  /** The texts of the prints that end a line, in order. */
  function LineEnds(trace: seq<Action>): seq<string>
  {
    if trace == [] then []
    else (if trace[0].Print? && trace[0].newline then [trace[0].text] else []) + LineEnds(trace[1..])
  }

  function StatusText(s: Status): string
  {
    match s
    case NotExperiment => " not an experiment directory."
    case Ongoing => " is ongoing"
    case AlreadyDone => " already done."
    case Pending => " done."
  }

  /** The commands a well-behaved sweep issues: extraction then plotting, for each pending entry in listing order. */
  function PendingCommands(fs: set<Path>, dir: Path, listing: seq<Path>): seq<string>
  {
    if listing == [] then []
    else
      var path := Join(dir, listing[|listing| - 1]);
      PendingCommands(fs, dir, listing[..|listing| - 1]) +
      (if Classify(fs, path) == Pending then [ExtractCommand(path), PlotCommand(path)] else [])
  }

  /** extract(dir): the loop over the directory listing. */
  method Extract(fs: set<Path>, dir: Path, listing: seq<Path>) returns (trace: seq<Action>)
    ensures trace == [Header] + SweepActions(fs, dir, listing)
  {
    trace := [Header];
    var i := 0;
    while i < |listing|
      invariant 0 <= i <= |listing|
      invariant trace == [Header] + SweepActions(fs, dir, listing[..i])
    {
      SweepStep(fs, dir, listing, i);
      var path := Join(dir, listing[i]);
      var acts := [Print(path, false)];
      if Join(path, "log.txt") !in fs {
        acts := acts + [Print(" not an experiment directory.", true)];
      } else if Join(path, "ongoing") in fs {
        acts := acts + [Print(" is ongoing", true)];
      } else if Join(path, "plots/allplots.pdf") in fs {
        acts := acts + [Print(" already done.", true)];
      } else {
        acts := acts + [Print(" extracting data...", false), System(ExtractCommand(path)),
                        Print(" generating plots...", false), System(PlotCommand(path)),
                        Print(" done.", true)];
      }
      AppendAssoc([Header], SweepActions(fs, dir, listing[..i]), acts);
      trace := trace + acts;
      i := i + 1;
    }
    assert listing[..|listing|] == listing;
  }

  lemma AppendAssoc<T>(a: seq<T>, b: seq<T>, c: seq<T>)
    ensures (a + b) + c == a + (b + c)
  {
  }

  lemma SweepStep(fs: set<Path>, dir: Path, listing: seq<Path>, i: nat)
    requires i < |listing|
    ensures SweepActions(fs, dir, listing[..i + 1]) ==
      SweepActions(fs, dir, listing[..i]) + EntryActions(fs, dir, listing[i])
  {
    assert listing[..i + 1][..i] == listing[..i];
  }

  lemma {:induction false} CommandsAppend(a: seq<Action>, b: seq<Action>)
    ensures Commands(a + b) == Commands(a) + Commands(b)
  {
    if a == [] {
      assert a + b == b;
    } else {
      assert (a + b)[1..] == a[1..] + b;
      CommandsAppend(a[1..], b);
    }
  }

  lemma {:induction false} LineEndsAppend(a: seq<Action>, b: seq<Action>)
    ensures LineEnds(a + b) == LineEnds(a) + LineEnds(b)
  {
    if a == [] {
      assert a + b == b;
    } else {
      assert (a + b)[1..] == a[1..] + b;
      LineEndsAppend(a[1..], b);
    }
  }

  lemma OneAction(x: Action)
    ensures Commands([x]) == if x.System? then [x.command] else []
    ensures LineEnds([x]) == if x.Print? && x.newline then [x.text] else []
  {
    assert [x][1..] == [];
  }

  /** Commands and line ends of a trace extended by one action. */
  lemma Snoc(t: seq<Action>, x: Action)
    ensures Commands(t + [x]) == Commands(t) + (if x.System? then [x.command] else [])
    ensures LineEnds(t + [x]) == LineEnds(t) + (if x.Print? && x.newline then [x.text] else [])
  {
    CommandsAppend(t, [x]);
    LineEndsAppend(t, [x]);
    OneAction(x);
  }

  /** A directory is processed (extraction then plotting on its path) iff it has
      log.txt, no `ongoing` marker and no plots/allplots.pdf; otherwise no command
      runs.  Either way the entry ends exactly one line, whose last text names its status. */
  lemma EntryEffects(fs: set<Path>, dir: Path, name: Path)
    ensures var path := Join(dir, name);
      Commands(EntryActions(fs, dir, name)) ==
        if HasLog(fs, path) && !IsOngoing(fs, path) && !IsDone(fs, path)
        then [ExtractCommand(path), PlotCommand(path)] else []
    ensures LineEnds(EntryActions(fs, dir, name)) == [StatusText(Classify(fs, Join(dir, name)))]
  {
    var path := Join(dir, name);
    var t0 := [Print(path, false)];
    OneAction(Print(path, false));
    match Classify(fs, path)
    case NotExperiment => Snoc(t0, Print(" not an experiment directory.", true));
    case Ongoing => Snoc(t0, Print(" is ongoing", true));
    case AlreadyDone => Snoc(t0, Print(" already done.", true));
    case Pending =>
      var t1 := t0 + [Print(" extracting data...", false)];
      var t2 := t1 + [System(ExtractCommand(path))];
      var t3 := t2 + [Print(" generating plots...", false)];
      var t4 := t3 + [System(PlotCommand(path))];
      var t5 := t4 + [Print(" done.", true)];
      Snoc(t0, Print(" extracting data...", false));
      Snoc(t1, System(ExtractCommand(path)));
      Snoc(t2, Print(" generating plots...", false));
      Snoc(t3, System(PlotCommand(path)));
      Snoc(t4, Print(" done.", true));
      assert EntryActions(fs, dir, name) == t5;
  }

  /** The sweep's commands are exactly extraction then plotting for each pending
      entry, in listing order; no other entry triggers a command. */
  lemma {:induction false} SweepCommands(fs: set<Path>, dir: Path, listing: seq<Path>)
    ensures Commands(SweepActions(fs, dir, listing)) == PendingCommands(fs, dir, listing)
    decreases |listing|
  {
    if listing != [] {
      var init := listing[..|listing| - 1];
      var name := listing[|listing| - 1];
      SweepCommands(fs, dir, init);
      CommandsAppend(SweepActions(fs, dir, init), EntryActions(fs, dir, name));
      EntryEffects(fs, dir, name);
    }
  }

  /** Each listed entry is visited exactly once, in listing order: the i-th line of
      the sweep ends with the status of the i-th listed entry. */
  lemma {:induction false} SweepLines(fs: set<Path>, dir: Path, listing: seq<Path>)
    ensures var lines := LineEnds(SweepActions(fs, dir, listing));
      |lines| == |listing| &&
      forall i :: 0 <= i < |listing| ==> lines[i] == StatusText(Classify(fs, Join(dir, listing[i])))
    decreases |listing|
  {
    if listing != [] {
      var n := |listing| - 1;
      var init := listing[..n];
      var name := listing[n];
      var before := LineEnds(SweepActions(fs, dir, init));
      var lines := LineEnds(SweepActions(fs, dir, listing));
      var last := StatusText(Classify(fs, Join(dir, name)));
      assert lines == before + [last] by {
        LineEndsAppend(SweepActions(fs, dir, init), EntryActions(fs, dir, name));
        EntryEffects(fs, dir, name);
      }
      SweepLines(fs, dir, init);
      forall i | 0 <= i < |listing|
        ensures lines[i] == StatusText(Classify(fs, Join(dir, listing[i])))
      {
        if i < n {
          assert listing[i] == init[i] && lines[i] == before[i];
        } else {
          assert i == n && lines[i] == last;
        }
      }
    }
  }

  /** Once plotting has produced plots/allplots.pdf, a second sweep finds the directory already done. */
  lemma RerunFindsDone(fs: set<Path>, path: Path)
    requires Classify(fs, path) == Pending
    ensures Classify(fs + {Join(path, "plots/allplots.pdf")}, path) == AlreadyDone
  {
  }

  /** The file f inside the experiment directory n of the scenario's "runs/" directory. */
  function RunFile(n: Path, f: Path): Path
  {
    Join(Join("runs/", n), f)
  }

  lemma RunFileShape(n: Path, f: Path)
    requires |n| == 1 && n[0] != '/' && |f| > 0 && f[0] != '/'
    ensures var p := RunFile(n, f); |p| == 7 + |f| && p[5] == n[0] && p[7..] == f
  {
    assert Join("runs/", n) == "runs/" + n;
  }

  const ScenarioFs: set<Path> :=
    {RunFile("b", "log.txt"), RunFile("b", "ongoing"),
     RunFile("c", "log.txt"), RunFile("c", "plots/allplots.pdf"),
     RunFile("d", "log.txt")}

  lemma ScenarioA()
    ensures Classify(ScenarioFs, Join("runs/", "a")) == NotExperiment
  {
    RunFileShape("a", "log.txt");
    RunFileShape("b", "log.txt");
    RunFileShape("b", "ongoing");
    RunFileShape("c", "log.txt");
    RunFileShape("c", "plots/allplots.pdf");
    RunFileShape("d", "log.txt");
    assert RunFile("a", "log.txt") !in ScenarioFs;
  }

  lemma ScenarioB()
    ensures Classify(ScenarioFs, Join("runs/", "b")) == Ongoing
  {
    assert RunFile("b", "log.txt") in ScenarioFs;
    assert RunFile("b", "ongoing") in ScenarioFs;
  }

  lemma ScenarioC()
    ensures Classify(ScenarioFs, Join("runs/", "c")) == AlreadyDone
  {
    RunFileShape("c", "ongoing");
    RunFileShape("b", "log.txt");
    RunFileShape("b", "ongoing");
    RunFileShape("c", "log.txt");
    RunFileShape("c", "plots/allplots.pdf");
    RunFileShape("d", "log.txt");
    assert RunFile("c", "log.txt") in ScenarioFs;
    assert RunFile("c", "ongoing") !in ScenarioFs;
    assert RunFile("c", "plots/allplots.pdf") in ScenarioFs;
  }

  lemma ScenarioD()
    ensures Classify(ScenarioFs, Join("runs/", "d")) == Pending
  {
    RunFileShape("d", "ongoing");
    RunFileShape("d", "plots/allplots.pdf");
    RunFileShape("b", "log.txt");
    RunFileShape("b", "ongoing");
    RunFileShape("c", "log.txt");
    RunFileShape("c", "plots/allplots.pdf");
    RunFileShape("d", "log.txt");
    assert RunFile("d", "log.txt") in ScenarioFs;
    assert RunFile("d", "ongoing") !in ScenarioFs;
    assert RunFile("d", "plots/allplots.pdf") !in ScenarioFs;
  }

  /** A four-directory scenario: a has no log.txt, b is ongoing, c is done
      and d has only log.txt; only d triggers extraction and plotting. */
  lemma Scenario()
    ensures Commands(SweepActions(ScenarioFs, "runs/", ["a", "b", "c", "d"])) ==
      [ExtractCommand(Join("runs/", "d")), PlotCommand(Join("runs/", "d"))]
  {
    var listing := ["a", "b", "c", "d"];
    SweepCommands(ScenarioFs, "runs/", listing);
    ScenarioA();
    ScenarioB();
    ScenarioC();
    ScenarioD();
    assert listing[..1] == ["a"];
    assert listing[..1][..0] == [];
    assert PendingCommands(ScenarioFs, "runs/", listing[..1]) == [];
    assert listing[..2][..1] == listing[..1];
    assert PendingCommands(ScenarioFs, "runs/", listing[..2]) == [];
    assert listing[..3][..2] == listing[..2];
    assert PendingCommands(ScenarioFs, "runs/", listing[..3]) == [];
    assert listing[..|listing| - 1] == listing[..3];
  }
}
