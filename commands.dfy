/**
 * Console command dispatch (`CommandManager` of package
 * `com.github.rei0925.command`). Reflection is replaced by data: a command
 * object is its `@CommandAlias` value (if annotated) and its declared member
 * functions with their `@Subcommand` values, in the order reflection lists
 * them. A handler is named by its object and member function; invoking it is
 * not modelled, `runCommand` yields the handler and the arguments it would
 * receive.
 */
module Commands {
  import opened Common
  import opened KotlinText

  /** A declared member function and the value of its `@Subcommand`, None when it has none. */
  datatype MemberFunction = MemberFunction(name: string, subcommand: Option<string>)

  /** An object passed to `registerCommand`. */
  datatype CommandObject = CommandObject(instance: nat, alias: Option<string>, members: seq<MemberFunction>)

  /** The `instance to { args -> method.call(instance, args) }` pair, by name. */
  datatype Handler = Handler(instance: nat, member: string)

  datatype Invocation = Invocation(handler: Handler, args: seq<string>)

  /** The key a member function is stored under: "alias sub" for a non-empty subcommand, else the alias. */
  function KeyFor(alias: string, m: MemberFunction): string
  {
    if m.subcommand.Some? && |m.subcommand.value| > 0 then alias + " " + m.subcommand.value else alias
  }

  /** `commands` after storing every member of `members`, in order, each overwriting its key. */
  function Registered(commands: map<string, Handler>, instance: nat, alias: string, members: seq<MemberFunction>): map<string, Handler>
  {
    if |members| == 0 then commands
    else
      var last := members[|members| - 1];
      Registered(commands, instance, alias, members[..|members| - 1])[KeyFor(alias, last) := Handler(instance, last.name)]
  }

  /** A key holds the handler of the last member stored under it. */
  lemma {:induction false} RegisteredLastWins(commands: map<string, Handler>, instance: nat, alias: string, members: seq<MemberFunction>, j: nat)
    requires j < |members|
    requires forall k :: j < k < |members| ==> KeyFor(alias, members[k]) != KeyFor(alias, members[j])
    ensures var r := Registered(commands, instance, alias, members);
            KeyFor(alias, members[j]) in r && r[KeyFor(alias, members[j])] == Handler(instance, members[j].name)
  {
    if j < |members| - 1 {
      RegisteredLastWins(commands, instance, alias, members[..|members| - 1], j);
    }
  }

  /** A key no member is stored under keeps what it held before. */
  lemma {:induction false} RegisteredKeepsOthers(commands: map<string, Handler>, instance: nat, alias: string, members: seq<MemberFunction>, key: string)
    requires forall k :: 0 <= k < |members| ==> KeyFor(alias, members[k]) != key
    ensures var r := Registered(commands, instance, alias, members);
            (key in r <==> key in commands) && (key in commands ==> r[key] == commands[key])
  {
    if |members| > 0 {
      RegisteredKeepsOthers(commands, instance, alias, members[..|members| - 1], key);
    }
  }

  /** Input without a space is a single token. */
  lemma OneToken(input: string)
    ensures ' ' !in input ==> Split(input, ' ') == [input]
  {
    if ' ' !in input {
      SplitNoSep(input, ' ');
    }
  }

  class CommandManager {
    var commands: map<string, Handler>

    constructor ()
      ensures commands == map[]
    {
      commands := map[];
    }

    /** `registerCommand`: nothing for an object without `@CommandAlias`; else every member is stored under its key. */
    method RegisterCommand(obj: CommandObject)
      modifies this
      ensures obj.alias.None? ==> commands == old(commands)
      ensures obj.alias.Some? ==> commands == Registered(old(commands), obj.instance, obj.alias.value, obj.members)
    {
      if obj.alias.None? {
        return;
      }
      var alias := obj.alias.value;
      var i := 0;
      while i < |obj.members|
        invariant 0 <= i <= |obj.members|
        invariant commands == Registered(old(commands), obj.instance, alias, obj.members[..i])
      {
        var member := obj.members[i];
        var key := if member.subcommand.Some? && |member.subcommand.value| > 0 then alias + " " + member.subcommand.value else alias;
        assert obj.members[..i + 1][..i] == obj.members[..i];
        commands := commands[key := Handler(obj.instance, member.name)];
        i := i + 1;
      }
      assert obj.members[..|obj.members|] == obj.members;
    }

    /**
     * `runCommand(input)`: the input split on ' '; the two-token key
     * "t0 t1" is tried first, then t0 alone; the handler gets every token
     * but the first. None where neither key is registered.
     */
    function RunCommand(input: string): (r: Option<Invocation>)
      reads this
      ensures var tokens := Split(input, ' ');
              var cmdKey := if |tokens| > 1 then tokens[0] + " " + tokens[1] else tokens[0];
              (r.Some? <==> cmdKey in commands || tokens[0] in commands)
              && (r.Some? ==> r.value.args == tokens[1..])
              && (cmdKey in commands ==> r.value.handler == commands[cmdKey])
              && (cmdKey !in commands && tokens[0] in commands ==> r.value.handler == commands[tokens[0]])
      ensures ' ' !in input ==> (r.Some? <==> input in commands) && (r.Some? ==> r.value.args == [])
    {
      OneToken(input);
      var tokens := Split(input, ' ');
      var cmdKey := if |tokens| > 1 then tokens[0] + " " + tokens[1] else tokens[0];
      if cmdKey in commands then Some(Invocation(commands[cmdKey], tokens[1..]))
      else if tokens[0] in commands then Some(Invocation(commands[tokens[0]], tokens[1..]))
      else None
    }
  }

  /**
   * After registering an object, typing its alias, a non-empty subcommand
   * and space-free arguments reaches the last member declared with that
   * subcommand, and the subcommand is still the handler's first argument.
   */
  lemma SubcommandDispatch(cm: CommandManager, before: map<string, Handler>, obj: CommandObject, j: nat, args: seq<string>)
    requires obj.alias.Some? && cm.commands == Registered(before, obj.instance, obj.alias.value, obj.members)
    requires j < |obj.members| && obj.members[j].subcommand.Some? && |obj.members[j].subcommand.value| > 0
    requires forall k :: j < k < |obj.members| ==> KeyFor(obj.alias.value, obj.members[k]) != KeyFor(obj.alias.value, obj.members[j])
    requires ' ' !in obj.alias.value && ' ' !in obj.members[j].subcommand.value
    requires forall k :: 0 <= k < |args| ==> ' ' !in args[k]
    ensures var sub := obj.members[j].subcommand.value;
            cm.RunCommand(Join([obj.alias.value, sub] + args, ' '))
              == Some(Invocation(Handler(obj.instance, obj.members[j].name), [sub] + args))
  {
    var alias, sub := obj.alias.value, obj.members[j].subcommand.value;
    var tokens := [alias, sub] + args;
    SplitJoin(tokens, ' ');
    RegisteredLastWins(before, obj.instance, alias, obj.members, j);
    assert tokens[1..] == [sub] + args;
  }
}
