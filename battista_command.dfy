/**
 * commands/BattistaCommand.java: `/battista [reload|help]` and its tab completer.
 *
 * The sender's `battista.reload` permission is a boolean parameter, and whether
 * `reloadConfig()` throws is another; messages and logging are left to the
 * caller of the result.
 */
module Battista {
  import opened JavaLang

  /** What the command does once it has recognised `/battista`. */
  datatype Action =
    | ShowHelp            // sendHelp
    | ReloadDenied        // no battista.reload: the denial message only
    | Reloaded            // reloadConfig() and the success message
    | ReloadFailed        // reloadConfig() threw: the error message
    | UnknownSubcommand   // "Sottocomando sconosciuto..."

  /** `false` for another command's name, `true` with what was done otherwise. */
  datatype CommandResult = NotBattista | Handled(action: Action)

  /** onCommand. */
  function OnCommand(name: string, args: seq<string>, canReload: bool, reloadThrows: bool): CommandResult {
    if !EqualsIgnoreCase(name, "battista") then NotBattista
    else if |args| == 0 then Handled(ShowHelp)
    else if Lower(args[0]) == "reload" then
      Handled(if !canReload then ReloadDenied else if reloadThrows then ReloadFailed else Reloaded)
    else if Lower(args[0]) == "help" then Handled(ShowHelp)
    else Handled(UnknownSubcommand)
  }

  /** The dispatch table: help with no argument or `help`, the reload path on `reload`, the unknown message otherwise. */
  lemma Dispatch(name: string, args: seq<string>, canReload: bool, reloadThrows: bool)
    ensures var r := OnCommand(name, args, canReload, reloadThrows);
      && (r.NotBattista? <==> !EqualsIgnoreCase(name, "battista"))
      && (r.Handled? ==> (r.action == ShowHelp <==> args == [] || Lower(args[0]) == "help"))
      && (r.Handled? ==> (r.action in {ReloadDenied, Reloaded, ReloadFailed} <==> args != [] && Lower(args[0]) == "reload"))
      && (r.Handled? ==> (r.action == UnknownSubcommand <==>
            args != [] && Lower(args[0]) != "reload" && Lower(args[0]) != "help"))
  {
  }

  /** Without `battista.reload` the configuration is never reloaded; with it, reloading is attempted. */
  lemma ReloadNeedsPermission(name: string, args: seq<string>, canReload: bool, reloadThrows: bool)
    requires args != [] && Lower(args[0]) == "reload" && EqualsIgnoreCase(name, "battista")
    ensures OnCommand(name, args, canReload, reloadThrows) == Handled(ReloadDenied) <==> !canReload
    ensures OnCommand(name, args, canReload, reloadThrows) == Handled(Reloaded) <==> canReload && !reloadThrows
  {
  }

  /** The command name and subcommands match in any ASCII case: `/BATTISTA Reload`. */
  lemma CaseInsensitiveDispatch()
    ensures OnCommand("BATTISTA", ["Reload"], true, false) == Handled(Reloaded)
    ensures OnCommand("Battista", ["HELP"], false, false) == Handled(ShowHelp)
    ensures OnCommand("ask", [], true, false) == NotBattista
  {
    assert Lower("BATTISTA") == "battista";
    assert Lower("Reload") == "reload";
    assert Lower("Battista") == "battista";
    assert Lower("HELP") == "help";
    assert Lower("ask") != Lower("battista") by {
      assert |Lower("ask")| != |Lower("battista")|;
    }
  }

  // ---------------------------------------------------------------------------
  // onTabComplete

  const Subcommands: seq<string> := ["reload", "help"]

  /** A subcommand is suggested when it starts with what was typed (ignoring case) and the sender may use it. */
  predicate Offers(sub: string, typed: string, canReload: bool) {
    StartsWith(Lower(sub), Lower(typed)) && (sub != "reload" || canReload)
  }

  /** The subsequence of `subs`, in order, that is offered. */
  function Offered(subs: seq<string>, typed: string, canReload: bool): seq<string>
    decreases |subs|
  {
    if subs == [] then []
    else
      var last := subs[|subs| - 1];
      Offered(subs[..|subs| - 1], typed, canReload) + (if Offers(last, typed, canReload) then [last] else [])
  }

  /** onTabComplete: suggestions only for the first argument. */
  method OnTabComplete(args: seq<string>, canReload: bool) returns (completions: seq<string>)
    ensures |args| != 1 ==> completions == []
    ensures |args| == 1 ==> completions == Offered(Subcommands, args[0], canReload)
  {
    completions := [];
    if |args| == 1 {
      var i := 0;
      while i < |Subcommands|
        invariant 0 <= i <= |Subcommands|
        invariant completions == Offered(Subcommands[..i], args[0], canReload)
      {
        assert Subcommands[..i + 1][..i] == Subcommands[..i];
        var sub := Subcommands[i];
        if StartsWith(Lower(sub), Lower(args[0])) {
          if sub == "reload" && !canReload {
            i := i + 1;
            continue;
          }
          completions := completions + [sub];
        }
        i := i + 1;
      }
      assert Subcommands[..i] == Subcommands;
    }
  }

  /** A name is suggested exactly when it is a subcommand that is offered. */
  lemma {:induction false} OfferedMembership(subs: seq<string>, typed: string, canReload: bool, x: string)
    ensures x in Offered(subs, typed, canReload) <==> x in subs && Offers(x, typed, canReload)
    decreases |subs|
  {
    if subs != [] {
      var init := subs[..|subs| - 1];
      OfferedMembership(init, typed, canReload, x);
      assert subs == init + [subs[|subs| - 1]];
    }
  }

  /** Filtering keeps the order of the list: the suggestions for `reload`, `help` written out. */
  lemma CompletionsInOrder(typed: string, canReload: bool)
    ensures Offered(Subcommands, typed, canReload)
         == (if Offers("reload", typed, canReload) then ["reload"] else [])
          + (if Offers("help", typed, canReload) then ["help"] else [])
  {
    assert Subcommands[..1] == ["reload"];
    assert Subcommands[..1][..0] == [];
  }

  /** Typing nothing offers both subcommands, `reload` only to those who may reload. */
  lemma {:induction false} EmptyPrefixOffersAll(canReload: bool)
    ensures Offered(Subcommands, "", canReload) == if canReload then ["reload", "help"] else ["help"]
  {
    CompletionsInOrder("", canReload);
    assert StartsWith(Lower("reload"), Lower(""));
    assert StartsWith(Lower("help"), Lower(""));
  }

  /** "RE" completes to `reload` for those who may reload, and to nothing for others. */
  lemma {:induction false} PrefixCompletesReload(canReload: bool)
    ensures Offered(Subcommands, "RE", canReload) == if canReload then ["reload"] else []
  {
    CompletionsInOrder("RE", canReload);
    assert Lower("RE") == "re";
    assert StartsWith(Lower("reload"), "re");
    assert !StartsWith(Lower("help"), "re") by {
      assert Lower("help")[0] == 'h';
    }
  }
}
