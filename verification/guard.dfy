/**
 * The pre-tool-use hook (pack/dotclaude/hooks/pre_tool_use.py): given the
 * tool about to run, its command and the file it writes, decide whether to
 * let it through (exit 0) or block it (exit 2). The checks run in a fixed
 * order and the first that decides wins.
 *
 * `shlex.split` of the command is an input: its token list, or `None` when
 * it raises. Which session flag files exist is an input too.
 */
module Guard {
  import opened Wrappers
  import opened Text

  /** The fields of the hook's input that the checks read (missing fields
      read as `""`). */
  datatype Call = Call(tool: string, command: string, filePath: string)

  /** Which `.claude/session/ALLOW_*` files exist. */
  datatype Flags = Flags(prodDeploy: bool, dbMigrate: bool, triggerDeploy: bool, mobileRelease: bool)

  /** Exit 0, exit 2 with a message, or an uncaught exception (exit 1). */
  datatype Verdict = Allow | Block(reason: string) | Crash

  function ExitCode(v: Verdict): int {
    match v
    case Allow => 0
    case Block(_) => 2
    case Crash => 1
  }

  const BlockBasenames: set<string> :=
    {".env", ".env.local", ".env.production", ".env.development",
     "package-lock.json", "pnpm-lock.yaml", "yarn.lock",
     "id_rsa", "id_ed25519", "known_hosts",
     "serviceAccountKey.json", "GoogleService-Info.plist", "google-services.json"}

  const RmReason: string := "rm -rf blocked (restrict to trees/ or use git worktree remove)"
  const CommitReason: string := "commits/tags/PR merges are human-only. Use /prepare-commit to stage & draft."
  const ProdReason: string := "production deploy blocked (set ALLOW_PROD_DEPLOY)"
  const DbReason: string := "Supabase DB migration/reset blocked (set ALLOW_DB_MIGRATE)"
  const TriggerReason: string := "trigger.dev deploy blocked (set ALLOW_TRIGGER_DEPLOY)"
  const MobileReason: string := "mobile release blocked (set ALLOW_MOBILE_RELEASE)"

  predicate EditTool(tool: string) {
    tool == "Edit" || tool == "Write" || tool == "MultiEdit"
  }

  /** An edit under `docs/` or `.claude/`, which is always let through. */
  predicate DocsEdit(c: Call) {
    EditTool(c.tool) && (HasPrefix(c.filePath, "docs/") || HasPrefix(c.filePath, ".claude/"))
  }

  /** A secret, a lock file, or a path inside `.git/` or `config/secrets/`. */
  predicate Sensitive(path: string) {
    PyBasename(path) in BlockBasenames || Contains(path, "/.git/") || Contains(path, "/config/secrets/")
  }

  predicate RmCall(c: Call) {
    HasPrefix(c.tool, "Bash(") && Contains(c.command, "rm -rf")
  }

  /** The tokens `rm -rf` acts on: neither flags nor `rm` itself. */
  function RmTargets(tokens: seq<string>): (r: seq<string>)
    ensures forall t :: t in r <==> t in tokens && !HasPrefix(t, "-") && t != "rm"
    decreases |tokens|
  {
    if |tokens| == 0 then []
    else
      var rest := RmTargets(tokens[1..]);
      assert forall t :: t in tokens <==> t == tokens[0] || t in tokens[1..];
      if !HasPrefix(tokens[0], "-") && tokens[0] != "rm" then [tokens[0]] + rest else rest
  }

  /** At least one target, and every target inside `trees/` with no `..`. */
  predicate RmConfined(tokens: seq<string>) {
    var targets := RmTargets(tokens);
    |targets| > 0 && forall t :: t in targets ==> HasPrefix(t, "trees/") && !Contains(t, "..")
  }

  predicate CommitTool(tool: string) {
    HasPrefix(tool, "Bash(git commit") || HasPrefix(tool, "Bash(gh pr ") || HasPrefix(tool, "Bash(git tag")
  }

  predicate ProdDeploy(cmd: string) {
    Contains(cmd, "wrangler deploy --env production")
  }

  predicate DbMigrate(cmd: string) {
    HasPrefix(cmd, "supabase db reset") || HasPrefix(cmd, "supabase db push")
  }

  predicate TriggerDeploy(cmd: string) {
    HasPrefix(cmd, "npx trigger.dev deploy") || HasPrefix(cmd, "npx @trigger.dev/cli deploy")
  }

  predicate MobileRelease(cmd: string) {
    HasPrefix(cmd, "fastlane") || HasPrefix(cmd, "flutter build ipa") || HasPrefix(cmd, "flutter build appbundle")
  }

  /** A release command whose flag file is missing. */
  predicate Ungated(cmd: string, f: Flags) {
    (ProdDeploy(cmd) && !f.prodDeploy) || (DbMigrate(cmd) && !f.dbMigrate)
    || (TriggerDeploy(cmd) && !f.triggerDeploy) || (MobileRelease(cmd) && !f.mobileRelease)
  }

  /** The checks after the `rm -rf` guard: the commit gate and the four
      release gates, in order. */
  function Gates(c: Call, f: Flags): (r: Verdict)
    ensures r.Allow? || r.Block?
    ensures r.Block? <==> CommitTool(c.tool) || Ungated(c.command, f)
  {
    if CommitTool(c.tool) then Block(CommitReason)
    else if ProdDeploy(c.command) && !f.prodDeploy then Block(ProdReason)
    else if DbMigrate(c.command) && !f.dbMigrate then Block(DbReason)
    else if TriggerDeploy(c.command) && !f.triggerDeploy then Block(TriggerReason)
    else if MobileRelease(c.command) && !f.mobileRelease then Block(MobileReason)
    else Allow
  }

  /** The hook's decision; `unparsable` is what happens when the `rm -rf`
      guard cannot tokenise the command. */
  function Check(c: Call, tokens: Option<seq<string>>, f: Flags, unparsable: Verdict): Verdict {
    if DocsEdit(c) then Allow
    else if Sensitive(c.filePath) then Block("blocked write to sensitive: " + c.filePath)
    else if RmCall(c) && tokens.None? then unparsable
    else if RmCall(c) && !RmConfined(tokens.value) then Block(RmReason)
    else Gates(c, f)
  }

  /** The script as written: `shlex.split` raising escapes as exit 1. */
  function DecideAsWritten(c: Call, tokens: Option<seq<string>>, f: Flags): (r: Verdict)
    ensures r.Crash? <==> !DocsEdit(c) && !Sensitive(c.filePath) && RmCall(c) && tokens.None?
  {
    Check(c, tokens, f, Crash)
  }

  /** The guard with an untokenisable `rm -rf` command blocked like any
      other unconfined one. */
  function Decide(c: Call, tokens: Option<seq<string>>, f: Flags): (r: Verdict)
    ensures r.Allow? || r.Block?
    ensures DocsEdit(c) ==> r == Allow
    ensures !DocsEdit(c) && Sensitive(c.filePath) ==> r.Block?
    ensures RmCall(c) && r.Allow? ==> tokens.Some? && RmConfined(tokens.value)
    ensures CommitTool(c.tool) ==> r.Block?
    ensures !DocsEdit(c) && Ungated(c.command, f) ==> r.Block?
  {
    EditIsNotBash(c.tool);
    Check(c, tokens, f, Block(RmReason))
  }

  lemma EditIsNotBash(tool: string)
    ensures EditTool(tool) ==> !HasPrefix(tool, "Bash(")
  {
    if EditTool(tool) && |tool| >= 5 {
      assert tool[0] != 'B';
      assert tool[..5][0] == tool[0];
    }
  }

  /** Allow is the default: a call no check objects to goes through. */
  lemma AllowIsDefault(c: Call, tokens: Option<seq<string>>, f: Flags)
    ensures Decide(c, tokens, f) == Allow <==>
              DocsEdit(c)
              || (!Sensitive(c.filePath) && (RmCall(c) ==> tokens.Some? && RmConfined(tokens.value))
                  && !CommitTool(c.tool) && !Ungated(c.command, f))
  {
  }

  /** Creating a flag file only ever turns a block into an allow. */
  lemma FlagsOnlyLoosen(c: Call, tokens: Option<seq<string>>, f: Flags, g: Flags)
    requires f.prodDeploy ==> g.prodDeploy
    requires f.dbMigrate ==> g.dbMigrate
    requires f.triggerDeploy ==> g.triggerDeploy
    requires f.mobileRelease ==> g.mobileRelease
    ensures Decide(c, tokens, f) == Allow ==> Decide(c, tokens, g) == Allow
  {
  }

  /** A confined `rm -rf` with every release flag set is let through unless
      the path is sensitive or the tool is a commit. */
  lemma ConfinedRmAllowed(c: Call, tokens: seq<string>)
    requires RmCall(c) && RmConfined(tokens) && !Sensitive(c.filePath) && !CommitTool(c.tool)
    ensures Decide(c, Some(tokens), Flags(true, true, true, true)) == Allow
  {
  }

  /** `rm -rf` with no target, or with one outside `trees/` or climbing out
      with `..`, is blocked. */
  lemma RmOutsideTreesBlocked(c: Call, tokens: seq<string>, f: Flags)
    requires RmCall(c) && !Sensitive(c.filePath)
    requires RmTargets(tokens) == []
             || exists t :: t in tokens && !HasPrefix(t, "-") && t != "rm" && (!HasPrefix(t, "trees/") || Contains(t, ".."))
    ensures Decide(c, Some(tokens), f) == Block(RmReason)
  {
    EditIsNotBash(c.tool);
  }

  /** The targets of `rm -rf build` and `rm -rf trees/../src`. */
  lemma TargetsOfExamples()
    ensures RmTargets(["rm", "-rf", "build"]) == ["build"] && !HasPrefix("build", "trees/")
    ensures RmTargets(["rm", "-rf", "trees/../src"]) == ["trees/../src"] && Contains("trees/../src", "..")
  {
    var a := ["rm", "-rf", "build"];
    assert a[1..] == ["-rf", "build"] && a[1..][1..] == ["build"] && a[1..][1..][1..] == [];
    assert "build"[..1] == "b" && "rm"[..1] == "r" && "trees/../src"[..1] == "t";
    assert HasPrefix("-rf", "-") && !HasPrefix("build", "-") && !HasPrefix("rm", "-");
    var b := ["rm", "-rf", "trees/../src"];
    assert b[1..] == ["-rf", "trees/../src"] && b[1..][1..] == ["trees/../src"] && b[1..][1..][1..] == [];
    assert !HasPrefix("trees/../src", "-");
    assert HasPrefix("trees/../src"[6..], "..");
    ContainsAt("trees/../src", "..", 6);
  }

  /** When `shlex.split` raises on an `rm -rf` command that no earlier check
      decided, the script as written exits 1, which is not a block; the
      corrected guard blocks it. */
  lemma UnparsableRmEscapes(c: Call, f: Flags)
    requires RmCall(c) && !Sensitive(c.filePath)
    ensures DecideAsWritten(c, None, f) == Crash && ExitCode(Crash) != ExitCode(Block(RmReason))
    ensures Decide(c, None, f) == Block(RmReason)
  {
    EditIsNotBash(c.tool);
  }

  /** Such a command: `rm -rf / # don't` runs `rm -rf /` in a shell (the
      rest is a comment), while `shlex.split` raises on its unclosed quote. */
  lemma UnclosedQuoteCall()
    ensures RmCall(Call("Bash(rm -rf /)", "rm -rf / # don't", "")) && !Sensitive("")
  {
    assert PyBasename("") == "";
    assert !Contains("", "/.git/") && !Contains("", "/config/secrets/");
    assert HasPrefix("rm -rf / # don't", "rm -rf");
  }
}
