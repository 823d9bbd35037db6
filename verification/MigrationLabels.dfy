/** The migration pipeline: one module prints catalog intents as label sentences, three others read
    them back. The labels are the only channel between them. */
module MigrationLabels {
  import opened Text

  datatype MigrationClass =
    | ManagedSoftware | SystemBaseline | UserDotfile | ServiceConfig | LanguageGlobalPackage
    | ContainerWorkload | ManualInstall | UnknownReview | DoNotMigrate

  /** The migration part of a catalog rule; `data` is None for "none". */
  datatype CatalogRule = CatalogRule(displayName: string, installs: bool, config: bool, data: Option<string>,
                                     validate: seq<string>, restartServices: seq<string>)

  datatype Kind = InstallPackage | CopyConfig | Validate | Restart | Review | Export

  datatype Action = Action(kind: Kind, text: string, command: Option<string>, requiresSudo: bool, backup: bool)

  datatype Candidate = Candidate(id: string, name: string, migrationClass: MigrationClass, ignored: bool, recommended: seq<string>)

  datatype Decision = Pending | Approved | Skipped

  datatype Item = Item(id: string, name: string, migrationClass: MigrationClass, actions: seq<Action>, decision: Decision)

  // Printing -----------------------------------------------------------------------------------------

  /** What the classifier means before it becomes a sentence. */
  datatype Intent =
    | ToInstall(name: string)
    | ToCopyConfig
    | ToReviewData(data: string)
    | ToValidate(command: string)
    | ToRestart(service: string)
    | ToAdvise(advice: string)

  function Label(i: Intent): string
  {
    match i
    case ToInstall(name) => INSTALL + (" " + name + ".")
    case ToCopyConfig => "Copy" + " catalog-owned config files with backup and diff."
    case ToReviewData(data) => "Review" + (" " + data + " data directories before copy.")
    case ToValidate(command) => "Validate with" + ":" + (" " + command + ".")
    case ToRestart(service) => "Reload/restart service" + ":" + (" " + service + ".")
    case ToAdvise(advice) => advice
  }

  const INSTALL := "Install package/capability"

  function Labels(intents: seq<Intent>): (ls: seq<string>)
    ensures |ls| == |intents| && forall k :: 0 <= k < |intents| ==> ls[k] == Label(intents[k])
  {
    if intents == [] then [] else [Label(intents[0])] + Labels(intents[1..])
  }

  function Validations(commands: seq<string>): (intents: seq<Intent>)
    ensures |intents| == |commands| && forall k :: 0 <= k < |commands| ==> intents[k] == ToValidate(commands[k])
  {
    if commands == [] then [] else [ToValidate(commands[0])] + Validations(commands[1..])
  }

  function Restarts(services: seq<string>): (intents: seq<Intent>)
    ensures |intents| == |services| && forall k :: 0 <= k < |services| ==> intents[k] == ToRestart(services[k])
  {
    if services == [] then [] else [ToRestart(services[0])] + Restarts(services[1..])
  }

  function Advice(c: MigrationClass): seq<Intent>
  {
    match c
    case LanguageGlobalPackage =>
      [ToAdvise("Generate" + " language-specific reinstall command."), ToAdvise("Review" + " version and lockfile compatibility.")]
    case ContainerWorkload =>
      [ToAdvise("Search" + " for compose files before migrating images."), ToAdvise("Review" + " container inspect data if compose is missing.")]
    case ManualInstall => [ToAdvise("Add to" + " review queue and ask user for config/data paths.")]
    case _ => [ToAdvise("Review" + " manually before adding to a migration plan.")]
  }

  function Intents(rule: Option<CatalogRule>, c: MigrationClass): seq<Intent>
  {
    match rule
    case None => Advice(c)
    case Some(r) =>
      (if r.installs then [ToInstall(r.displayName)] else [])
      + (if r.config then [ToCopyConfig] else [])
      + (if r.data.Some? then [ToReviewData(r.data.value)] else [])
      + Validations(r.validate)
      + Restarts(r.restartServices)
  }

  lemma LabelsPush(a: seq<Intent>, i: Intent)
    ensures Labels(a + [i]) == Labels(a) + [Label(i)]
  {
    hide Label;
    assert forall k :: 0 <= k < |a| + 1 ==> Labels(a + [i])[k] == (Labels(a) + [Label(i)])[k];
  }

  /** The pushing loops of the classifier print exactly the intents, in order. */
  method RecommendedActions(rule: Option<CatalogRule>, c: MigrationClass) returns (actions: seq<string>)
    ensures actions == Labels(Intents(rule, c))
  {
    hide Label, Labels, Advice, Validations, Restarts;
    if rule.None? {
      return Labels(Advice(c));
    }
    var r := rule.value;
    actions := [];
    ghost var said: seq<Intent> := [];
    if r.installs {
      LabelsPush(said, ToInstall(r.displayName));
      actions, said := actions + [Label(ToInstall(r.displayName))], said + [ToInstall(r.displayName)];
    }
    if r.config {
      LabelsPush(said, ToCopyConfig);
      actions, said := actions + [Label(ToCopyConfig)], said + [ToCopyConfig];
    }
    if r.data.Some? {
      LabelsPush(said, ToReviewData(r.data.value));
      actions, said := actions + [Label(ToReviewData(r.data.value))], said + [ToReviewData(r.data.value)];
    }
    ghost var fixed := said;
    assert fixed == (if r.installs then [ToInstall(r.displayName)] else [])
                    + (if r.config then [ToCopyConfig] else []) + (if r.data.Some? then [ToReviewData(r.data.value)] else []);
    for i := 0 to |r.validate|
      invariant said == fixed + Validations(r.validate)[..i]
      invariant actions == Labels(said)
    {
      LabelsPush(said, ToValidate(r.validate[i]));
      assert Validations(r.validate)[..i + 1] == Validations(r.validate)[..i] + [ToValidate(r.validate[i])];
      actions, said := actions + [Label(ToValidate(r.validate[i]))], said + [ToValidate(r.validate[i])];
    }
    assert said == fixed + Validations(r.validate);
    ghost var checked := said;
    for i := 0 to |r.restartServices|
      invariant said == checked + Restarts(r.restartServices)[..i]
      invariant actions == Labels(said)
    {
      LabelsPush(said, ToRestart(r.restartServices[i]));
      assert Restarts(r.restartServices)[..i + 1] == Restarts(r.restartServices)[..i] + [ToRestart(r.restartServices[i])];
      actions, said := actions + [Label(ToRestart(r.restartServices[i]))], said + [ToRestart(r.restartServices[i])];
    }
    assert said == Intents(rule, c);
  }

  function KindOf(text: string): Kind
  {
    if "Validate" <= text then Validate
    else if "Reload" <= text then Restart
    else if "Copy" <= text then CopyConfig
    else if "Install" <= text then InstallPackage
    else Review
  }

  function ActionFor(text: string, c: MigrationClass): Action
  {
    Action(KindOf(text), text, None, !c.LanguageGlobalPackage?, "Copy" <= text)
  }

  function ActionsFor(labels: seq<string>, c: MigrationClass): (actions: seq<Action>)
    ensures |actions| == |labels| && forall k :: 0 <= k < |labels| ==> actions[k] == ActionFor(labels[k], c)
  {
    if labels == [] then [] else [ActionFor(labels[0], c)] + ActionsFor(labels[1..], c)
  }

  function ActionsForCandidate(c: Candidate): seq<Action>
  {
    if c.recommended == [] then [Action(Review, "Review this item before execution.", None, false, false)]
    else ActionsFor(c.recommended, c.migrationClass)
  }

  function DecisionFor(decisions: map<string, Decision>, id: string): Decision
  {
    if id in decisions then decisions[id] else Pending
  }

  predicate Planned(c: Candidate, decisions: map<string, Decision>)
  {
    !c.ignored && !c.migrationClass.DoNotMigrate? && DecisionFor(decisions, c.id) != Skipped
  }

  function PlanItem(c: Candidate, decisions: map<string, Decision>): Item
  {
    Item(c.id, c.name, c.migrationClass, ActionsForCandidate(c), DecisionFor(decisions, c.id))
  }

  function BuildPlan(candidates: seq<Candidate>, decisions: map<string, Decision>): seq<Item>
  {
    if candidates == [] then []
    else if Planned(candidates[0], decisions) then [PlanItem(candidates[0], decisions)] + BuildPlan(candidates[1..], decisions)
    else BuildPlan(candidates[1..], decisions)
  }

  // Reading ------------------------------------------------------------------------------------------

  function DropDot(s: string): string
  {
    if s != "" && s[|s| - 1] == '.' then s[..|s| - 1] else s
  }

  /** Everything after the first colon, without one final full stop, trimmed. */
  function AfterColon(text: string): string { Trim(DropDot(Join(Split(text, ':')[1..], ":"))) }

  /** The reader of dry-run and verification. */
  function CommandAfterColon(text: string): Option<string>
  {
    if AfterColon(text) == "" then None else Some(AfterColon(text))
  }

  /** The exporter's reader of install labels; the fixed part is matched in any case. */
  function InstallName(text: string): string
  {
    var n := |INSTALL|;
    if |text| > n && LowerCase(text[..n]) == LowerCase(INSTALL) && IsSpace(text[n])
    then DropDot(TrimStart(text[n..]))
    else DropDot(text)
  }

  predicate IsWordChar(c: char)
  {
    'a' <= c <= 'z' || 'A' <= c <= 'Z' || '0' <= c <= '9' || c in "._:+-"
  }

  /** `shellWord` of dry-run and verification. */
  function ShellWord(s: string): string
  {
    if s == "" then "" else (if IsWordChar(s[0]) || s[0] == '@' || s[0] == '/' then [s[0]] else "") + ShellWord(s[1..])
  }

  /** `shellWord` of the exporter, which drops `@` and `/` as well. */
  function ExportWord(s: string): string
  {
    if s == "" then "" else (if IsWordChar(s[0]) then [s[0]] else "") + ExportWord(s[1..])
  }

  datatype Status = WouldRun | NeedsReview | Blocked

  datatype Step = Step(id: string, itemId: string, kind: Kind, text: string, status: Status, command: Option<string>, hook: Option<string>)

  function StepId(itemId: string, index: nat): string { itemId + ":step" + ":" + Decimal(index) }

  function InstallPrefix(source: string): string
  {
    match source
    case "rpm" => "sudo dnf install -y "
    case "snap" => "sudo snap install "
    case "npm" => "sudo npm install -g "
    case "pip" => "pip3 install --user "
    case "gem" => "gem install "
    case "cargo" => "cargo install "
    case _ => "sudo apt-get install -y "
  }

  /** The id is cut at its first colon, and empty pieces are dropped before source and name are taken. */
  function InstallCommand(id: string, name: string): string
  {
    var i := IndexOf(id, ':');
    if i == -1 then InstallPrefix("apt") + ShellWord(name)
    else
      var pieces := (if id[..i] != "" then [id[..i]] else []) + (if id[i + 1..] != "" then [id[i + 1..]] else []);
      var source := if |pieces| > 0 then pieces[0] else "";
      InstallPrefix(source) + ShellWord(if |pieces| > 1 then pieces[1] else name)
  }

  function StepFor(item: Item, action: Action, index: nat): Step
  {
    var id := StepId(item.id, index);
    match action.kind
    case InstallPackage => Step(id, item.id, action.kind, action.text, WouldRun, Some(InstallCommand(item.id, item.name)), None)
    case Validate =>
      var command := CommandAfterColon(action.text);
      Step(id, item.id, action.kind, action.text, if command.Some? then WouldRun else NeedsReview, command, command)
    case Restart =>
      (match CommandAfterColon(action.text)
       case Some(service) =>
         Step(id, item.id, action.kind, action.text, WouldRun, Some("sudo systemctl reload-or-restart " + ShellWord(service)), None)
       case None => Step(id, item.id, action.kind, action.text, NeedsReview, None, None))
    case CopyConfig => Step(id, item.id, action.kind, action.text, NeedsReview, None, None)
    case Review => Step(id, item.id, action.kind, action.text, NeedsReview, None, None)
    case Export => Step(id, item.id, action.kind, action.text, Blocked, None, None)
  }

  function StepsFrom(item: Item, index: nat): (steps: seq<Step>)
    requires index <= |item.actions|
    ensures |steps| == |item.actions| - index
    ensures forall k :: 0 <= k < |steps| ==> steps[k] == StepFor(item, item.actions[index + k], index + k)
  {
    seq(|item.actions| - index, k requires 0 <= k < |item.actions| - index => StepFor(item, item.actions[index + k], index + k))
  }

  function AllSteps(items: seq<Item>): seq<Step>
  {
    if items == [] then [] else StepsFrom(items[0], 0) + AllSteps(items[1..])
  }

  datatype Summary = Summary(wouldRun: nat, needsReview: nat, blocked: nat, total: nat)

  function CountStatus(steps: seq<Step>, s: Status): nat
  {
    if steps == [] then 0
    else CountStatus(steps[..|steps| - 1], s) + if steps[|steps| - 1].status == s then 1 else 0
  }

  method BuildDryRun(items: seq<Item>) returns (steps: seq<Step>, summary: Summary)
    ensures steps == AllSteps(items)
    ensures summary == Summary(CountStatus(steps, WouldRun), CountStatus(steps, NeedsReview), CountStatus(steps, Blocked), |steps|)
    ensures summary.wouldRun + summary.needsReview + summary.blocked == summary.total
  {
    steps := AllSteps(items);
    summary := Summary(0, 0, 0, |steps|);
    for i := 0 to |steps|
      invariant summary == Summary(CountStatus(steps[..i], WouldRun), CountStatus(steps[..i], NeedsReview),
                                   CountStatus(steps[..i], Blocked), |steps|)
      invariant summary.wouldRun + summary.needsReview + summary.blocked == i
    {
      assert steps[..i + 1][..i] == steps[..i];
      match steps[i].status {
        case WouldRun => summary := summary.(wouldRun := summary.wouldRun + 1);
        case NeedsReview => summary := summary.(needsReview := summary.needsReview + 1);
        case Blocked => summary := summary.(blocked := summary.blocked + 1);
      }
    }
    assert steps[..|steps|] == steps;
  }

  // Verification ---------------------------------------------------------------------------------------

  datatype CheckKind = CommandCheck | ServiceCheck | ManualCheck

  datatype Severity = Required | Recommended | Manual

  datatype Check = Check(id: string, itemId: string, kind: CheckKind, severity: Severity, command: Option<string>)

  function CheckId(itemId: string, service: bool, suffix: string): string
  {
    itemId + (if service then ":verify-service" else ":verify") + ":" + suffix
  }

  function CommandOf(a: Action): Option<string>
  {
    if CommandAfterColon(a.text).Some? then CommandAfterColon(a.text)
    else if a.command == Some("") then None else a.command
  }

  function ValidateCheck(item: Item, a: Action, index: nat): Check
  {
    var c := CommandOf(a);
    Check(CheckId(item.id, false, Decimal(index)), item.id, if c.Some? then CommandCheck else ManualCheck,
          if c.Some? then Required else Manual, c)
  }

  function ServiceCheckFor(item: Item, a: Action, index: nat): Check
  {
    match CommandOf(a)
    case Some(service) =>
      Check(CheckId(item.id, true, Decimal(index)), item.id, ServiceCheck, Recommended, Some("systemctl is-active " + ShellWord(service)))
    case None => Check(CheckId(item.id, true, Decimal(index)), item.id, ManualCheck, Manual, None)
  }

  function ActionChecks(item: Item, n: nat): seq<Check>
    requires n <= |item.actions|
  {
    if n == 0 then []
    else
      var a := item.actions[n - 1];
      ActionChecks(item, n - 1)
      + if a.kind == Validate then [ValidateCheck(item, a, n - 1)]
        else if a.kind == Restart then [ServiceCheckFor(item, a, n - 1)]
        else []
  }

  predicate HasCommandCheck(checks: seq<Check>) { exists k :: 0 <= k < |checks| && checks[k].kind == CommandCheck }

  function ManualFallback(item: Item): Check
  {
    Check(CheckId(item.id, false, "manual"), item.id, ManualCheck, if item.migrationClass.ManagedSoftware? then Recommended else Manual, None)
  }

  function ItemChecks(item: Item): seq<Check>
  {
    var checks := ActionChecks(item, |item.actions|);
    if HasCommandCheck(checks) then checks else checks + [ManualFallback(item)]
  }

  method ChecksForItem(item: Item) returns (checks: seq<Check>)
    ensures checks == ItemChecks(item)
  {
    checks := [];
    for index := 0 to |item.actions|
      invariant checks == ActionChecks(item, index)
    {
      var action := item.actions[index];
      if action.kind == Validate {
        checks := checks + [ValidateCheck(item, action, index)];
      }
      if action.kind == Restart {
        checks := checks + [ServiceCheckFor(item, action, index)];
      }
    }
    if !HasCommandCheck(checks) {
      checks := checks + [ManualFallback(item)];
    }
  }

  function AllChecks(items: seq<Item>): seq<Check>
  {
    if items == [] then [] else ItemChecks(items[0]) + AllChecks(items[1..])
  }

  // Export -----------------------------------------------------------------------------------------------

  /** What the shell exporter emits after echoing the label: a live command, a commented one, or nothing. */
  datatype BashLine = Runs(command: string) | Shows(comment: string) | Nothing

  function BashFor(a: Action): BashLine
  {
    if a.command.Some? && a.command.value != "" then Runs(a.command.value)
    else
      match a.kind
      case InstallPackage => Shows("sudo apt-get install -y " + ExportWord(InstallName(a.text)))
      case Validate => if AfterColon(a.text) != "" then Shows(AfterColon(a.text)) else Nothing
      case Restart => if AfterColon(a.text) != "" then Shows(AfterColon(a.text)) else Nothing
      case _ => Nothing
  }

  /** The command, service or package name the Ansible exporter passes on. */
  function AnsibleArgument(a: Action): Option<string>
  {
    match a.kind
    case InstallPackage => Some(ExportWord(InstallName(a.text)))
    case Validate => Some(if AfterColon(a.text) != "" then AfterColon(a.text) else "true")
    case Restart => Some(ExportWord(AfterColon(a.text)))
    case _ => None
  }

  // Printing and reading agree ------------------------------------------------------------------------------

  function IntentKind(i: Intent): Kind
  {
    match i
    case ToInstall(_) => InstallPackage
    case ToCopyConfig => CopyConfig
    case ToReviewData(_) => Review
    case ToValidate(_) => Validate
    case ToRestart(_) => Restart
    case ToAdvise(_) => Review
  }

  lemma NotPrefix(p: string, l: string, k: nat)
    requires k < |p| && k < |l| && p[k] != l[k]
    ensures !(p <= l)
  {}

  /** Sentences are told apart by their first three letters. */
  lemma KindByLetters(p: string, rest: string)
    requires |p| > 2 && (p[0] == 'R' ==> p[2] == 'v') && p[0] != 'V' && p[0] != 'C' && p[0] != 'I'
    ensures KindOf(p + rest) == Review
  {
    var l := p + rest;
    assert l[0] == p[0] && l[2] == p[2];
    NotPrefix("Validate", l, 0);
    NotPrefix("Copy", l, 0);
    NotPrefix("Install", l, 0);
    if l[0] == 'R' {
      NotPrefix("Reload", l, 2);
    } else {
      NotPrefix("Reload", l, 0);
    }
  }

  lemma KindOfValidate(command: string)
    ensures KindOf(Label(ToValidate(command))) == Validate
  {
    assert Label(ToValidate(command))[..8] == "Validate";
  }

  lemma KindOfRestart(service: string)
    ensures KindOf(Label(ToRestart(service))) == Restart
  {
    var l := Label(ToRestart(service));
    assert l[0] == 'R';
    NotPrefix("Validate", l, 0);
    assert l[..6] == "Reload";
  }

  lemma KindOfInstall(name: string)
    ensures KindOf(Label(ToInstall(name))) == InstallPackage
  {
    var l := Label(ToInstall(name));
    assert l[0] == 'I';
    NotPrefix("Validate", l, 0);
    NotPrefix("Reload", l, 0);
    NotPrefix("Copy", l, 0);
    assert l[..7] == "Install";
  }

  lemma KindOfCopy(rest: string)
    ensures KindOf("Copy" + rest) == CopyConfig
  {
    var l := "Copy" + rest;
    assert l[0] == 'C';
    NotPrefix("Validate", l, 0);
    NotPrefix("Reload", l, 0);
    assert l[..4] == "Copy";
  }

  lemma KindOfAdvice(c: MigrationClass, k: nat)
    requires k < |Advice(c)|
    ensures Advice(c)[k].ToAdvise? && KindOf(Advice(c)[k].advice) == Review
  {
    hide KindOf;
    match c
    case LanguageGlobalPackage =>
      KindByLetters("Generate", " language-specific reinstall command.");
      KindByLetters("Review", " version and lockfile compatibility.");
    case ContainerWorkload =>
      KindByLetters("Search", " for compose files before migrating images.");
      KindByLetters("Review", " container inspect data if compose is missing.");
    case ManualInstall =>
      KindByLetters("Add to", " review queue and ask user for config/data paths.");
    case _ =>
      KindByLetters("Review", " manually before adding to a migration plan.");
  }

  lemma CatalogGivesNoAdvice(rule: Option<CatalogRule>, c: MigrationClass, k: nat)
    requires rule.Some? && k < |Intents(rule, c)|
    ensures !Intents(rule, c)[k].ToAdvise?
  {
    hide Validations, Restarts, Advice;
  }

  /** Every sentence the classifier can print is classified back to the kind that was meant. */
  lemma KindsSurvive(rule: Option<CatalogRule>, c: MigrationClass, k: nat)
    requires k < |Intents(rule, c)|
    ensures KindOf(Label(Intents(rule, c)[k])) == IntentKind(Intents(rule, c)[k])
  {
    var i := Intents(rule, c)[k];
    hide KindOf, Advice;
    if rule.None? {
      KindOfAdvice(c, k);
    } else {
      CatalogGivesNoAdvice(rule, c, k);
    }
    hide Intents;
    match i
    case ToInstall(name) => KindOfInstall(name);
    case ToCopyConfig => KindOfCopy(" catalog-owned config files with backup and diff.");
    case ToReviewData(data) => KindByLetters("Review", " " + data + " data directories before copy.");
    case ToValidate(command) => KindOfValidate(command);
    case ToRestart(service) => KindOfRestart(service);
    case ToAdvise(_) =>
  }

  /** What comes back is the trimmed command, and nothing if that is empty. */
  lemma ReadBack(head: string, command: string)
    requires ':' !in head
    ensures AfterColon(head + ":" + (" " + command + ".")) == Trim(command)
  {
    var tail := " " + command + ".";
    SplitAtFirst(head, ':', tail);
    JoinSplit(tail, ':');
    assert ([head] + Split(tail, ':'))[1..] == Split(tail, ':');
    assert DropDot(tail) == " " + command;
    TrimBlankPrefix(command);
  }

  lemma TrimmedHasText(s: string)
    ensures Trimmed(s) ==> s != ""
  {}

  /** Dry run, verification and both exporters read a validation command back exactly as the catalog
      wrote it, if and only if it is trimmed and not empty. */
  lemma ValidationSurvives(item: Item, c: MigrationClass, command: string, index: nat)
    ensures var a := ActionFor(Label(ToValidate(command)), c);
            var exact := Trimmed(command);
            && (StepFor(item, a, index).command == Some(command) <==> exact)
            && (ValidateCheck(item, a, index).command == Some(command) <==> exact)
            && (BashFor(a) == Shows(command) <==> exact)
            && (exact ==> AnsibleArgument(a) == Some(command) && StepFor(item, a, index).status == WouldRun
                          && ValidateCheck(item, a, index).severity == Required)
  {
    hide KindOf, Trim, Trimmed, AfterColon, InstallCommand, StepId, CheckId, Decimal;
    KindOfValidate(command);
    ReadBack("Validate with", command);
    TrimIsFixedPoint(command);
    assert Trimmed(command) ==> command != "" by { TrimmedHasText(command); }
  }

  /** The same for services: every reader gets the trimmed name, and none if it is blank, up to each
      module's own `shellWord`; the two agree exactly on names without `@` and `/`. */
  lemma ServiceSurvives(item: Item, c: MigrationClass, service: string, index: nat)
    ensures var a := ActionFor(Label(ToRestart(service)), c);
            var name := Trim(service);
            && (CommandAfterColon(a.text) == Some(service) <==> Trimmed(service))
            && (name == "" ==> CommandAfterColon(a.text) == None && StepFor(item, a, index).status == NeedsReview
                               && ServiceCheckFor(item, a, index).kind == ManualCheck && BashFor(a) == Nothing)
            && (name != "" ==>
                  && CommandAfterColon(a.text) == Some(name)
                  && StepFor(item, a, index).command == Some("sudo systemctl reload-or-restart " + ShellWord(name))
                  && ServiceCheckFor(item, a, index).command == Some("systemctl is-active " + ShellWord(name))
                  && BashFor(a) == Shows(name))
            && AnsibleArgument(a) == Some(ExportWord(name))
            && (ExportWord(name) == ShellWord(name) <==> '@' !in name && '/' !in name)
  {
    hide KindOf, Trim, Trimmed, AfterColon, InstallCommand, StepId, CheckId, Decimal, ShellWord, ExportWord;
    KindOfRestart(service);
    ReadBack("Reload/restart service", service);
    TrimIsFixedPoint(service);
    TrimmedHasText(service);
    WordsAgree(Trim(service));
  }

  lemma {:induction false} WordsAgree(s: string)
    ensures |ExportWord(s)| <= |ShellWord(s)|
    ensures '@' in s || '/' in s ==> |ExportWord(s)| < |ShellWord(s)|
    ensures '@' !in s && '/' !in s ==> ExportWord(s) == ShellWord(s)
    decreases |s|
  {
    if s != "" {
      WordsAgree(s[1..]);
      assert s == [s[0]] + s[1..];
    }
  }

  lemma {:induction false} TrimStartDot(s: string)
    ensures TrimStart(s + ".") == TrimStart(s) + "."
    decreases |s|
  {
    if s != "" && IsSpace(s[0]) {
      TrimStartDot(s[1..]);
      assert (s + ".")[1..] == s[1..] + ".";
    } else if s == "" {
      assert s + "." == ".";
    }
  }

  /** The exporter gets the display name back exactly when it does not start with a blank. */
  lemma InstallNameSurvives(name: string)
    ensures InstallName(Label(ToInstall(name))) == name <==> name == "" || !IsSpace(name[0])
  {
    var text := Label(ToInstall(name));
    var rest := " " + name + ".";
    assert text[..|INSTALL|] == INSTALL && text[|INSTALL|..] == rest;
    assert rest[1..] == name + ".";
    assert TrimStart(rest) == TrimStart(name + ".");
    TrimStartDot(name);
    assert DropDot(TrimStart(name) + ".") == TrimStart(name);
    TrimStartShorter(name);
  }

  lemma {:induction false} TrimStartShorter(s: string)
    ensures |TrimStart(s)| <= |s|
    ensures s != "" && IsSpace(s[0]) ==> |TrimStart(s)| < |s|
    decreases |s|
  {
    if s != "" && IsSpace(s[0]) {
      TrimStartShorter(s[1..]);
    }
  }

  /** An id of the form source, colon, name yields that source's installer and that name, also when the
      name itself contains colons. */
  lemma InstallCommandIsExact(source: string, name: string)
    requires source != "" && ':' !in source
    ensures InstallCommand(source + ":" + name, name) == InstallPrefix(source) + ShellWord(name)
  {
    var id := source + ":" + name;
    assert id[|source|] == ':';
    assert forall k :: 0 <= k < |source| ==> id[k] == source[k] && source[k] in source;
    assert IndexOf(id, ':') == |source|;
    assert id[..|source|] == source && id[|source| + 1..] == name;
  }

  lemma InstallAtColon(source: string, name: string, itemName: string)
    requires ':' !in source
    ensures InstallCommand(source + ":" + name, itemName)
            == if source != "" then InstallPrefix(source) + ShellWord(if name != "" then name else itemName)
               else InstallPrefix(name) + ShellWord(itemName)
  {
    var id := source + ":" + name;
    assert id[|source|] == ':';
    assert forall k :: 0 <= k < |source| ==> id[k] == source[k] && source[k] in source;
    assert IndexOf(id, ':') == |source|;
    assert id[..|source|] == source && id[|source| + 1..] == name;
  }

  /** What each package source installs with. */
  predicate InstallsWith(source: string, installer: string)
  {
    || (source == "rpm" && installer == "sudo dnf install -y ")
    || (source == "snap" && installer == "sudo snap install ")
    || (source == "npm" && installer == "sudo npm install -g ")
    || (source == "pip" && installer == "pip3 install --user ")
    || (source == "gem" && installer == "gem install ")
    || (source == "cargo" && installer == "cargo install ")
    || (source != "rpm" && source != "snap" && source != "npm" && source != "pip" && source != "gem" && source != "cargo"
        && installer == "sudo apt-get install -y ")
  }

  lemma InstallerTexts(source: string, installer: string)
    requires InstallsWith(source, installer)
    ensures InstallPrefix(source) == installer
  {}

  /** The source before the colon picks the installer, and an id that ends at its colon falls back to
      the item's own name; an id without a colon is an apt package. */
  lemma InstallersBySource(source: string, installer: string, name: string, itemName: string)
    requires InstallsWith(source, installer) && source != "" && ':' !in source
    ensures InstallCommand(source + ":" + name, itemName) == installer + ShellWord(if name != "" then name else itemName)
    ensures InstallCommand(source, itemName) == "sudo apt-get install -y " + ShellWord(itemName)
  {
    hide InstallCommand, ShellWord, InstallPrefix, InstallsWith;
    InstallerTexts(source, installer);
    InstallAtColon(source, name, itemName);
    NoColonInstalls(source, itemName);
  }

  lemma NoColonInstalls(id: string, itemName: string)
    requires ':' !in id
    ensures InstallCommand(id, itemName) == "sudo apt-get install -y " + ShellWord(itemName)
  {
    assert IndexOf(id, ':') == -1;
  }

  /** The characters a shell word keeps. */
  predicate Safe(c: char)
  {
    'a' <= c <= 'z' || 'A' <= c <= 'Z' || '0' <= c <= '9' || c == '.' || c == '_' || c == ':' || c == '+' || c == '-'
  }

  lemma WordCharIsSafe(c: char)
    ensures IsWordChar(c) <==> Safe(c)
  {
    var dots := "._:+-";
    assert c in dots <==> c == dots[0] || c == dots[1] || c == dots[2] || c == dots[3] || c == dots[4];
  }

  lemma {:induction false} ShellWordConcat(a: string, b: string)
    ensures ShellWord(a + b) == ShellWord(a) + ShellWord(b)
    decreases |a|
  {
    hide IsWordChar;
    if a == "" {
      assert a + b == b;
    } else {
      ShellWordConcat(a[1..], b);
      assert (a + b)[1..] == a[1..] + b && (a + b)[0] == a[0];
      var head := if IsWordChar(a[0]) || a[0] == '@' || a[0] == '/' then [a[0]] else "";
      assert ShellWord(a + b) == head + ShellWord(a[1..] + b) && ShellWord(a) == head + ShellWord(a[1..]);
    }
  }

  lemma {:induction false} ExportWordConcat(a: string, b: string)
    ensures ExportWord(a + b) == ExportWord(a) + ExportWord(b)
    decreases |a|
  {
    hide IsWordChar;
    if a == "" {
      assert a + b == b;
    } else {
      ExportWordConcat(a[1..], b);
      assert (a + b)[1..] == a[1..] + b && (a + b)[0] == a[0];
      var head := if IsWordChar(a[0]) then [a[0]] else "";
      assert ExportWord(a + b) == head + ExportWord(a[1..] + b) && ExportWord(a) == head + ExportWord(a[1..]);
    }
  }

  /** Both readers drop every character that is not safe, one by one, and keep the others in order; `@`
      and `/` survive in one of them only. */
  lemma WordsKeepSafeCharacters(a: string, b: string, c: char)
    ensures ShellWord(a + b) == ShellWord(a) + ShellWord(b) && ExportWord(a + b) == ExportWord(a) + ExportWord(b)
    ensures ShellWord([c]) == (if Safe(c) || c == '@' || c == '/' then [c] else "")
    ensures ExportWord([c]) == (if Safe(c) then [c] else "")
  {
    hide IsWordChar, Safe;
    ShellWordConcat(a, b);
    ExportWordConcat(a, b);
    WordCharIsSafe(c);
    assert [c][1..] == "";
  }

  /** The sentences that carry a name or a command. */
  lemma LabelTexts(x: string)
    ensures Label(ToInstall(x)) == "Install package/capability " + x + "."
    ensures Label(ToReviewData(x)) == "Review " + x + " data directories before copy."
    ensures Label(ToValidate(x)) == "Validate with: " + x + "."
    ensures Label(ToRestart(x)) == "Reload/restart service: " + x + "."
  {
    assert INSTALL + (" " + x + ".") == "Install package/capability " + x + ".";
    assert "Review" + (" " + x + " data directories before copy.") == "Review " + x + " data directories before copy.";
    assert "Validate with" + ":" + (" " + x + ".") == "Validate with: " + x + ".";
    assert "Reload/restart service" + ":" + (" " + x + ".") == "Reload/restart service: " + x + ".";
  }

  /** Which checks an action gives, by its label and its own command: a validation with a command is
      required, a restart with a service recommended, and either without one is left to the user. */
  lemma ChecksByFields(item: Item, a: Action, index: nat)
    ensures var said := AfterColon(a.text);
            var command := if said != "" then said else if a.command.Some? then a.command.value else "";
            var v, s := ValidateCheck(item, a, index), ServiceCheckFor(item, a, index);
            && v.itemId == item.id && s.itemId == item.id
            && (if command != "" then v.kind == CommandCheck && v.severity == Required && v.command == Some(command)
                else v.kind == ManualCheck && v.severity == Manual && v.command == None)
            && (if command != "" then
                  s.kind == ServiceCheck && s.severity == Recommended && s.command == Some("systemctl is-active " + ShellWord(command))
                else s.kind == ManualCheck && s.severity == Manual && s.command == None)
  {
    hide AfterColon, ShellWord, Decimal;
  }

  /** The manual check is there exactly when no check of the item runs a command; it is recommended for
      managed software. */
  lemma FallbackExactly(item: Item)
    ensures var checks := ItemChecks(item);
            && checks != []
            && var last := checks[|checks| - 1];
               if forall k :: 0 <= k < |checks| ==> checks[k].kind != CommandCheck then
                 last.id == CheckId(item.id, false, "manual") && last.itemId == item.id && last.kind == ManualCheck && last.command == None
                 && last.severity == (if item.migrationClass == ManagedSoftware then Recommended else Manual)
                 && checks[..|checks| - 1] == ActionChecks(item, |item.actions|)
               else checks == ActionChecks(item, |item.actions|)
  {
    hide ActionChecks, CheckId;
    var checks := ActionChecks(item, |item.actions|);
    if HasCommandCheck(checks) {
      var k :| 0 <= k < |checks| && checks[k].kind == CommandCheck;
      assert ItemChecks(item)[k].kind == CommandCheck;
    } else {
      assert forall k :: 0 <= k < |checks| ==> checks[k].kind != CommandCheck;
      assert ItemChecks(item)[..|checks|] == checks;
    }
  }

  /** What the exporters do with one action: an own command is run as it is; else an install, a
      validation or a restart is only shown, and a validation without a command becomes `true` in
      Ansible. */
  lemma ExportsByFields(a: Action)
    ensures var said := AfterColon(a.text);
            && (a.command.Some? && a.command.value != "" ==> BashFor(a) == Runs(a.command.value))
            && (a.command == None || a.command == Some("") ==>
                  BashFor(a) == match a.kind
                                case InstallPackage => Shows("sudo apt-get install -y " + ExportWord(InstallName(a.text)))
                                case Validate => (if said == "" then Nothing else Shows(said))
                                case Restart => (if said == "" then Nothing else Shows(said))
                                case _ => Nothing)
            && AnsibleArgument(a) == match a.kind
                                     case InstallPackage => Some(ExportWord(InstallName(a.text)))
                                     case Validate => Some(if said == "" then "true" else said)
                                     case Restart => Some(ExportWord(said))
                                     case _ => None
  {
    hide AfterColon, ExportWord, InstallName;
  }

  predicate SameWords(words: string) { LowerCase(words) == LowerCase(INSTALL) }

  /** The fixed words count in any case, but only with a blank after them; any other label is taken
      whole. */
  lemma InstallNameExactly(words: string, rest: string)
    requires |words| == |INSTALL|
    ensures SameWords(words) && rest != "" && IsSpace(rest[0]) ==> InstallName(words + rest) == DropDot(TrimStart(rest[1..]))
    ensures !SameWords(words) || rest == "" || !IsSpace(rest[0]) ==> InstallName(words + rest) == DropDot(words + rest)
  {
    hide LowerCase, IsSpace, DropDot;
    var n, text := |INSTALL|, words + rest;
    assert text[..n] == words && text[n..] == rest;
    assert rest != "" ==> text[n] == rest[0];
  }

  lemma ShortNamesWhole(text: string)
    requires |text| < |INSTALL|
    ensures InstallName(text) == DropDot(text)
  {}

  /** An install step runs the installer for the id of its item, never for its display name. */
  lemma InstallStepUsesId(item: Item, action: Action, index: nat, source: string, installer: string, name: string)
    requires action.kind == InstallPackage && InstallsWith(source, installer) && source != "" && ':' !in source
    requires item.id == source + ":" + name && name != ""
    ensures var step := StepFor(item, action, index);
            && step.status == WouldRun && step.command == Some(installer + ShellWord(name)) && step.hook == None
            && step.itemId == item.id && step.text == action.text
  {
    hide InstallCommand, ShellWord, InstallsWith, StepId;
    InstallersBySource(source, installer, name, item.name);
  }

  // Whole plans ----------------------------------------------------------------------------------------------

  /** An item whose actions are what the classifier printed for its rule. */
  ghost predicate Printed(item: Item, rule: Option<CatalogRule>)
  {
    var labels := Labels(Intents(rule, item.migrationClass));
    item.actions == if labels == [] then [Action(Review, "Review this item before execution.", None, false, false)]
                    else ActionsFor(labels, item.migrationClass)
  }

  lemma ReadsTrimmed(i: Intent)
    ensures i.ToValidate? ==> AfterColon(Label(i)) == Trim(i.command)
    ensures i.ToRestart? ==> AfterColon(Label(i)) == Trim(i.service)
  {
    hide AfterColon, Trim;
    if i.ToValidate? {
      ReadBack("Validate with", i.command);
    } else if i.ToRestart? {
      ReadBack("Reload/restart service", i.service);
    }
  }

  /** No step of a printed item is blocked, and the ones that need review are exactly the reviews, the
      config copies and the validations or restarts with a blank command. */
  lemma PrintedStepsAreRunnable(item: Item, rule: Option<CatalogRule>, k: nat)
    requires Printed(item, rule) && k < |item.actions|
    ensures var step := StepsFrom(item, 0)[k];
            && step.status != Blocked
            && (|Intents(rule, item.migrationClass)| > 0 ==>
                  && k < |Intents(rule, item.migrationClass)|
                  && (step.status == WouldRun <==>
                        match Intents(rule, item.migrationClass)[k]
                        case ToInstall(_) => true
                        case ToValidate(c) => Trim(c) != ""
                        case ToRestart(s) => Trim(s) != ""
                        case _ => false))
  {
    hide Intents, Label, KindOf, AfterColon, InstallCommand, StepId, Trim, Labels, ActionsFor, StepsFrom;
    var intents := Intents(rule, item.migrationClass);
    var action := item.actions[k];
    assert StepsFrom(item, 0)[k] == StepFor(item, action, k);
    if |intents| > 0 {
      assert action == ActionFor(Label(intents[k]), item.migrationClass);
      KindsSurvive(rule, item.migrationClass, k);
      ReadsTrimmed(intents[k]);
    }
  }

  predicate InPlan(item: Item, candidates: seq<Candidate>, decisions: map<string, Decision>)
  {
    exists k :: 0 <= k < |candidates| && Planned(candidates[k], decisions) && item == PlanItem(candidates[k], decisions)
  }

  /** A plan consists of exactly the planned candidates. */
  lemma {:induction false} PlanIsExact(candidates: seq<Candidate>, decisions: map<string, Decision>)
    ensures forall item :: item in BuildPlan(candidates, decisions) <==> InPlan(item, candidates, decisions)
    decreases |candidates|
  {
    hide PlanItem, Planned;
    if candidates != [] {
      var rest := candidates[1..];
      PlanIsExact(rest, decisions);
      assert forall k :: 0 <= k < |rest| ==> rest[k] == candidates[k + 1];
    }
  }

  /** The candidate belongs in a plan: of some interest, allowed to migrate, and not skipped. */
  predicate Wanted(c: Candidate, decisions: map<string, Decision>)
  {
    !c.ignored && c.migrationClass != DoNotMigrate && (c.id in decisions ==> decisions[c.id] != Skipped)
  }

  /** The item says what the candidate and the decisions say. */
  predicate Carries(item: Item, c: Candidate, decisions: map<string, Decision>)
  {
    && item.id == c.id && item.name == c.name && item.migrationClass == c.migrationClass
    && item.decision == (if c.id in decisions then decisions[c.id] else Pending)
    && |item.actions| == (if |c.recommended| == 0 then 1 else |c.recommended|)
    && (|c.recommended| == 0 ==> item.actions[0] == Action(Review, "Review this item before execution.", None, false, false))
    && forall k :: 0 <= k < |c.recommended| ==>
         && item.actions[k].text == c.recommended[k] && item.actions[k].command == None
         && (item.actions[k].requiresSudo <==> c.migrationClass != LanguageGlobalPackage)
         && (item.actions[k].backup <==> "Copy" <= c.recommended[k])
  }

  /** A plan is built candidate by candidate, in order: one item for a wanted one, nothing for any other. */
  lemma {:induction false} PlanIsFilter(a: seq<Candidate>, b: seq<Candidate>, decisions: map<string, Decision>, c: Candidate)
    ensures BuildPlan(a + b, decisions) == BuildPlan(a, decisions) + BuildPlan(b, decisions)
    ensures Wanted(c, decisions) ==> |BuildPlan([c], decisions)| == 1 && Carries(BuildPlan([c], decisions)[0], c, decisions)
    ensures !Wanted(c, decisions) ==> BuildPlan([c], decisions) == []
    decreases |a|
  {
    var rest: seq<Candidate> := [c][1..];
    assert BuildPlan(rest, decisions) == [];
    if a == [] {
      assert a + b == b;
    } else {
      hide Planned, PlanItem;
      PlanIsFilter(a[1..], b, decisions, c);
      assert (a + b)[1..] == a[1..] + b && (a + b)[0] == a[0];
    }
  }

  ghost predicate DistinctCandidates(cs: seq<Candidate>) { forall j, k :: 0 <= j < k < |cs| ==> cs[j].id != cs[k].id }

  ghost predicate DistinctItems(items: seq<Item>) { forall j, k :: 0 <= j < k < |items| ==> items[j].id != items[k].id }

  /** Distinct candidates make distinct items. */
  lemma {:induction false} PlanKeepsDistinct(candidates: seq<Candidate>, decisions: map<string, Decision>)
    requires DistinctCandidates(candidates)
    ensures DistinctItems(BuildPlan(candidates, decisions))
    decreases |candidates|
  {
    hide Planned, ActionsForCandidate, DecisionFor;
    if candidates != [] {
      var rest := candidates[1..];
      assert forall k :: 0 <= k < |rest| ==> rest[k] == candidates[k + 1];
      PlanKeepsDistinct(rest, decisions);
      PlanIsExact(rest, decisions);
      var plan := BuildPlan(rest, decisions);
      forall k | 0 <= k < |plan|
        ensures plan[k].id != candidates[0].id
      {
        assert plan[k] in plan && InPlan(plan[k], rest, decisions);
      }
    }
  }

  lemma LastColon(a: string, x: string, b: string, y: string)
    requires ':' !in x && ':' !in y && a + ":" + x == b + ":" + y
    ensures a == b && x == y
  {
    var s := a + ":" + x;
    assert s[|a|] == ':' && s[|b|] == ':';
    assert forall p :: |a| < p < |s| ==> s[p] == x[p - |a| - 1] && s[p] != ':';
    assert forall p :: |b| < p < |s| ==> s[p] == (b + ":" + y)[p] == y[p - |b| - 1] && s[p] != ':';
    assert |a| == |b|;
    assert a == s[..|a|] && b == s[..|b|] && x == s[|a| + 1..] && y == s[|b| + 1..];
  }

  lemma DecimalHasNoColon(n: nat)
    ensures ':' !in Decimal(n) && Decimal(n) != "manual"
  {
    assert !IsDigit(':') && !IsDigit('m');
    assert Decimal(n)[0] in Decimal(n);
  }

  /** A step id determines its item and its position. */
  lemma StepIdInjective(a: string, i: nat, b: string, j: nat)
    requires StepId(a, i) == StepId(b, j)
    ensures a == b && i == j
  {
    DecimalHasNoColon(i);
    DecimalHasNoColon(j);
    hide Decimal;
    LastColon(a + ":step", Decimal(i), b + ":step", Decimal(j));
    assert (a + ":step")[..|a|] == a && (b + ":step")[..|b|] == b;
    DecimalInjective(i, j);
  }

  lemma {:induction false} StepOrigin(items: seq<Item>, k: nat) returns (m: nat, index: nat)
    requires k < |AllSteps(items)|
    ensures m < |items| && AllSteps(items)[k].id == StepId(items[m].id, index)
    decreases |items|
  {
    hide StepId, InstallCommand, AfterColon;
    var first := StepsFrom(items[0], 0);
    if k < |first| {
      return 0, k;
    } else {
      m, index := StepOrigin(items[1..], k - |first|);
      m := m + 1;
    }
  }

  /** Distinct item ids give distinct step ids, over the whole dry run. */
  lemma {:induction false} StepsAreDistinct(items: seq<Item>, j: nat, k: nat)
    requires DistinctItems(items) && j < k < |AllSteps(items)|
    ensures AllSteps(items)[j].id != AllSteps(items)[k].id
    decreases |items|
  {
    hide StepId, InstallCommand, AfterColon;
    var first, rest := StepsFrom(items[0], 0), items[1..];
    assert forall m :: 0 <= m < |rest| ==> rest[m] == items[m + 1];
    var steps := AllSteps(items);
    if j >= |first| {
      StepsAreDistinct(rest, j - |first|, k - |first|);
    } else if steps[j].id == steps[k].id {
      var m, index := 0, k;
      if k >= |first| {
        m, index := StepOrigin(rest, k - |first|);
        m := m + 1;
      }
      StepIdInjective(items[0].id, j, items[m].id, index);
      assert false;
    }
  }

  /** A check id determines its item, its kind of check and its suffix. */
  lemma CheckIdInjective(a: string, s: bool, x: string, b: string, t: bool, y: string)
    requires ':' !in x && ':' !in y && CheckId(a, s, x) == CheckId(b, t, y)
    ensures a == b && s == t && x == y
  {
    var f, g := if s then ":verify-service" else ":verify", if t then ":verify-service" else ":verify";
    LastColon(a + f, x, b + g, y);
    var u := a + f;
    assert u == b + g;
    assert u[|u| - 1] == f[|f| - 1] == g[|g| - 1];
    assert f == g;
    assert a == u[..|a|] && b == u[..|b|];
  }

  lemma {:induction false} CheckOrigin(item: Item, n: nat, k: nat) returns (service: bool, index: nat)
    requires n <= |item.actions| && k < |ActionChecks(item, n)|
    ensures index < n && ActionChecks(item, n)[k].id == CheckId(item.id, service, Decimal(index))
    decreases n
  {
    hide CheckId, CommandAfterColon, Decimal;
    if k < |ActionChecks(item, n - 1)| {
      service, index := CheckOrigin(item, n - 1, k);
    } else {
      service, index := item.actions[n - 1].kind == Restart, n - 1;
    }
  }

  lemma {:induction false} ActionChecksDistinct(item: Item, n: nat, j: nat, k: nat)
    requires n <= |item.actions| && j < k < |ActionChecks(item, n)|
    ensures ActionChecks(item, n)[j].id != ActionChecks(item, n)[k].id
    decreases n
  {
    hide CheckId, CommandAfterColon, Decimal;
    var before := ActionChecks(item, n - 1);
    if k < |before| {
      ActionChecksDistinct(item, n - 1, j, k);
    } else {
      var s, i := CheckOrigin(item, n - 1, j);
      var t := item.actions[n - 1].kind == Restart;
      DecimalHasNoColon(i);
      DecimalHasNoColon(n - 1);
      if ActionChecks(item, n)[j].id == ActionChecks(item, n)[k].id {
        CheckIdInjective(item.id, s, Decimal(i), item.id, t, Decimal(n - 1));
        DecimalInjective(i, n - 1);
        assert false;
      }
    }
  }

  /** Every check of an item has an id of that item. */
  lemma ItemCheckOrigin(item: Item, k: nat) returns (service: bool, suffix: string)
    requires k < |ItemChecks(item)|
    ensures ':' !in suffix && ItemChecks(item)[k].id == CheckId(item.id, service, suffix)
    ensures k >= |ActionChecks(item, |item.actions|)| <==> suffix == "manual"
    ensures suffix == "manual" ==> k == |ItemChecks(item)| - 1
  {
    hide CheckId, ActionChecks, HasCommandCheck;
    var checks := ActionChecks(item, |item.actions|);
    if k < |checks| {
      var index;
      service, index := CheckOrigin(item, |item.actions|, k);
      DecimalHasNoColon(index);
      suffix := Decimal(index);
    } else {
      service, suffix := false, "manual";
    }
  }

  lemma ItemChecksDistinct(item: Item, j: nat, k: nat)
    requires j < k < |ItemChecks(item)|
    ensures ItemChecks(item)[j].id != ItemChecks(item)[k].id
  {
    hide CheckId, ActionChecks, HasCommandCheck, Decimal;
    var checks := ActionChecks(item, |item.actions|);
    if k < |checks| {
      ActionChecksDistinct(item, |item.actions|, j, k);
    } else {
      var s, x := ItemCheckOrigin(item, j);
      var t, y := ItemCheckOrigin(item, k);
      if ItemChecks(item)[j].id == ItemChecks(item)[k].id {
        CheckIdInjective(item.id, s, x, item.id, t, y);
        assert false;
      }
    }
  }

  lemma {:induction false} AllCheckOrigin(items: seq<Item>, k: nat) returns (m: nat, service: bool, suffix: string)
    requires k < |AllChecks(items)|
    ensures m < |items| && ':' !in suffix && AllChecks(items)[k].id == CheckId(items[m].id, service, suffix)
    decreases |items|
  {
    hide CheckId, ItemChecks;
    var first := ItemChecks(items[0]);
    if k < |first| {
      m := 0;
      service, suffix := ItemCheckOrigin(items[0], k);
    } else {
      m, service, suffix := AllCheckOrigin(items[1..], k - |first|);
      m := m + 1;
    }
  }

  /** Distinct item ids give distinct check ids, over the whole verification preview. */
  lemma {:induction false} ChecksAreDistinct(items: seq<Item>, j: nat, k: nat)
    requires DistinctItems(items) && j < k < |AllChecks(items)|
    ensures AllChecks(items)[j].id != AllChecks(items)[k].id
    decreases |items|
  {
    hide CheckId, ItemChecks;
    var first, rest := ItemChecks(items[0]), items[1..];
    assert forall m :: 0 <= m < |rest| ==> rest[m] == items[m + 1];
    if j >= |first| {
      ChecksAreDistinct(rest, j - |first|, k - |first|);
    } else if k < |first| {
      ItemChecksDistinct(items[0], j, k);
    } else {
      var s, x := ItemCheckOrigin(items[0], j);
      var m, t, y := AllCheckOrigin(rest, k - |first|);
      if AllChecks(items)[j].id == AllChecks(items)[k].id {
        CheckIdInjective(items[0].id, s, x, rest[m].id, t, y);
        assert false;
      }
    }
  }

  /** Every item is checked: by a command when some validation has one, else by hand. */
  lemma EveryItemIsChecked(item: Item)
    ensures HasCommandCheck(ItemChecks(item)) || ManualFallback(item) in ItemChecks(item)
    ensures ItemChecks(item) != []
  {
    hide ActionChecks;
    var checks := ActionChecks(item, |item.actions|);
    if HasCommandCheck(checks) {
      assert checks != [];
    }
  }
}
