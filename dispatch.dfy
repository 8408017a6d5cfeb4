/** The decision part of `main` in src/main.rs: the guard chain that picks
    one action from the argument vector (program name included), first match
    winning. The HTTP requests and console output of each action are not part
    of this model; the action is named by a `Command`. */
module Dispatch {
  import opened RustText
  import opened TimeParse
  import opened Plans
  import opened CreateArgs

  datatype Command =
    | Help
    | Version
    | List
    | Get(id: string)
    | Delete(id: string)
    | Clear
    | Create(plan: Plan)
    | Invalid

  /** The guard chain of `main`, in its order: help, version, list, delete,
      get, clear, and otherwise the creation grammar. */
  function Classify(args: seq<string>): (c: Command)
    ensures c.Create? ==> (|args| == 3 || |args| == 4) && IsDraft(c.plan) && c.plan.title == args[|args| - 1]
    ensures c.Get? || c.Delete? ==> |args| == 3 && c.id == args[2]
  {
    if |args| == 1 || (|args| == 2 && (args[1] == "--help" || args[1] == "-h")) then Help
    else if |args| == 2 && (args[1] == "--version" || args[1] == "-v") then Version
    else if |args| == 2 && (args[1] == "--list" || args[1] == "-l") then List
    else if |args| == 3 && (args[1] == "--delete" || args[1] == "-d") then Delete(args[2])
    else if |args| == 3 && (args[1] == "--get" || args[1] == "-g") then Get(args[2])
    else if |args| == 2 && (args[1] == "--clear" || args[1] == "-c") then Clear
    else
      match ParseArgs(args)
      case Some(p) => Create(p)
      case None => Invalid
  }

  /** No flag reads as a time, because none holds a colon. */
  lemma FlagsAreNotTimes(flag: string)
    requires flag in {"--delete", "-d", "--get", "-g"}
    ensures ParseHm(flag) == None
  {
    assert Count("--delete", ':') == 0 && Count("-d", ':') == 0;
    assert Count("--get", ':') == 0 && Count("-g", ':') == 0;
  }

  /** The flag commands, each exactly on its own shape: the spellings are
      distinct, so an earlier guard never takes a later guard's input. The
      id of `--get` and `--delete` is passed on as typed, unchecked. */
  lemma ClassifyFlags(args: seq<string>, id: string)
    ensures Classify(args) == Help <==>
      |args| == 1 || (|args| == 2 && args[1] in {"--help", "-h"})
    ensures Classify(args) == Version <==> |args| == 2 && args[1] in {"--version", "-v"}
    ensures Classify(args) == List <==> |args| == 2 && args[1] in {"--list", "-l"}
    ensures Classify(args) == Clear <==> |args| == 2 && args[1] in {"--clear", "-c"}
    ensures Classify(args) == Delete(id) <==> |args| == 3 && args[1] in {"--delete", "-d"} && id == args[2]
    ensures Classify(args) == Get(id) <==> |args| == 3 && args[1] in {"--get", "-g"} && id == args[2]
  {
  }

  /** The flags never hide a plan: whatever the creation grammar accepts is
      created, and a `Create` always comes from the creation grammar. */
  lemma ClassifyCreate(args: seq<string>, p: Plan)
    ensures Classify(args) == Create(p) <==> ParseArgs(args) == Some(p)
  {
    if |args| == 3 && args[1] in {"--delete", "-d", "--get", "-g"} {
      FlagsAreNotTimes(args[1]);
    }
  }

  /** `Invalid` exactly when no flag shape matches and the creation grammar
      refuses the arguments. */
  lemma ClassifyInvalid(args: seq<string>)
    ensures Classify(args) == Invalid <==>
      ParseArgs(args) == None
      && |args| != 1
      && !(|args| == 2 && args[1] in {"--help", "-h", "--version", "-v", "--list", "-l", "--clear", "-c"})
      && !(|args| == 3 && args[1] in {"--delete", "-d", "--get", "-g"})
  {
    if |args| != 1
      && !(|args| == 2 && args[1] in {"--help", "-h", "--version", "-v", "--list", "-l", "--clear", "-c"})
      && !(|args| == 3 && args[1] in {"--delete", "-d", "--get", "-g"})
    {
      ClassifyFallsThrough(args);
    }
  }

  /** Past the flag guards, the result is the creation grammar's verdict. */
  lemma ClassifyFallsThrough(args: seq<string>)
    requires |args| != 1
    requires !(|args| == 2 && args[1] in {"--help", "-h", "--version", "-v", "--list", "-l", "--clear", "-c"})
    requires !(|args| == 3 && args[1] in {"--delete", "-d", "--get", "-g"})
    ensures Classify(args) == if ParseArgs(args).Some? then Create(ParseArgs(args).value) else Invalid
  {
  }

  /** Examples: `--help` with an extra argument is not help but a failed
      creation; an empty vector (no program name) is invalid too. */
  lemma ClassifyExamples()
    ensures Classify(["todo", "--help", "extra"]) == Invalid
    ensures Classify([]) == Invalid
    ensures Classify(["todo"]) == Help
    ensures Classify(["todo", "-d", "not-a-number"]) == Delete("not-a-number")
  {
    assert Count("--help", ':') == 0;
  }
}
