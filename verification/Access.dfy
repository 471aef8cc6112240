/** Who is calling, and what the caller may call. */
module Access {
  import opened Wrappers

  const SHELL_APP_ID := "tech.solwear.shell"

  datatype Caller = Shell | App(id: string)

  datatype Denial = MethodNotFound | CapabilityDenied | InvalidRequest

  datatype Result<+T> = Ok(value: T) | Err(error: Denial)

  /** The caller behind a message, from its connection and from the app id stamped on it. */
  function ResolveCaller(bound: Option<string>, stamped: Option<string>): Result<Caller> {
    match (bound, stamped)
    case (Some(b), Some(s)) => if b != s then Err(InvalidRequest) else Ok(App(b))
    case (Some(b), None) => Ok(App(b))
    case (None, Some(s)) => if s != SHELL_APP_ID then Ok(App(s)) else Ok(Shell)
    case (None, None) => Ok(Shell)
  }

  /** The part of a method's name before its first dot. */
  function RequiredCapability(name: string): Option<string> {
    if name == "" then None
    else if name[0] == '.' then Some("")
    else
      match RequiredCapability(name[1..])
      case None => None
      case Some(prefix) => Some([name[0]] + prefix)
  }

  lemma {:induction false} CapabilityIsNamespace(name: string)
    ensures RequiredCapability(name).None? <==> '.' !in name
    ensures RequiredCapability(name).Some? ==>
              var prefix := RequiredCapability(name).value;
              '.' !in prefix && |prefix| < |name| && name[..|prefix| + 1] == prefix + "."
  {
    if name != "" && name[0] != '.' {
      CapabilityIsNamespace(name[1..]);
      assert name == [name[0]] + name[1..];
      var rest := RequiredCapability(name[1..]);
      if rest.Some? {
        assert name[..|rest.value| + 2] == [name[0]] + name[1..][..|rest.value| + 1];
      }
    }
  }

  /** `capabilities(id)` is what the manifest of the installed app `id` declares. */
  function CheckCapability(capabilities: string -> Option<seq<string>>, caller: Caller, name: string): Result<()> {
    match RequiredCapability(name)
    case None => Err(MethodNotFound)
    case Some(capability) =>
      if capability == "shell" then if caller.Shell? then Ok(()) else Err(CapabilityDenied)
      else if caller.Shell? then Ok(())
      else
        match capabilities(caller.id)
        case None => Err(CapabilityDenied)
        case Some(granted) => if capability in granted then Ok(()) else Err(CapabilityDenied)
  }

  /** A message is let through to `name` as `caller`. */
  predicate Admits(
    capabilities: string -> Option<seq<string>>, bound: Option<string>, stamped: Option<string>,
    caller: Caller, name: string)
  {
    ResolveCaller(bound, stamped) == Ok(caller) && CheckCapability(capabilities, caller, name).Ok?
  }

  /**
   * Nothing that arrives on an app's connection, or that is stamped with an app's id,
   * reaches the shell namespace, whatever the app's manifest declares; and on an app's
   * connection everything runs as that app.
   */
  lemma ShellNamespaceIsPrivate(
    capabilities: string -> Option<seq<string>>, bound: Option<string>, stamped: Option<string>,
    caller: Caller, name: string)
    requires Admits(capabilities, bound, stamped, caller, name)
    ensures bound.Some? ==> caller == App(bound.value)
    ensures "shell." <= name ==> caller.Shell? && bound.None? && (stamped.None? || stamped.value == SHELL_APP_ID)
  {
    CapabilityIsNamespace(name);
    if "shell." <= name {
      FirstDot(name, RequiredCapability(name).value, "shell");
    }
  }

  /** An app may call exactly the namespaces its installed manifest declares, apart from the shell's. */
  lemma AppsCallWhatTheyDeclare(capabilities: string -> Option<seq<string>>, id: string, name: string)
    ensures CheckCapability(capabilities, App(id), name).Ok? <==>
              exists prefix ::
                && prefix != "shell" && '.' !in prefix && prefix + "." <= name
                && capabilities(id).Some? && prefix in capabilities(id).value
  {
    CapabilityIsNamespace(name);
    if CheckCapability(capabilities, App(id), name).Ok? {
      var prefix := RequiredCapability(name).value;
      assert prefix + "." <= name;
    }
    forall prefix | '.' !in prefix && prefix + "." <= name
      ensures RequiredCapability(name) == Some(prefix)
    {
      DotAfter(name, prefix);
      FirstDot(name, prefix, RequiredCapability(name).value);
    }
  }

  lemma DotAfter(name: string, a: string)
    requires '.' !in a && a + "." <= name
    ensures |a| < |name| && name[|a|] == '.' && name[..|a|] == a
    ensures forall i :: 0 <= i < |a| ==> name[i] != '.'
  {
    assert (a + ".")[|a|] == '.';
    assert forall i :: 0 <= i < |a| ==> name[i] == (a + ".")[i] == a[i];
  }

  lemma FirstDot(name: string, a: string, b: string)
    requires '.' !in a && '.' !in b && a + "." <= name && b + "." <= name
    ensures a == b
  {
    DotAfter(name, a);
    DotAfter(name, b);
  }
}
