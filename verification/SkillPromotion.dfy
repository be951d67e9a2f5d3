/** Promotion of a validated skill package: a file transaction with a rollback at each fault point. */
module SkillPromotion {
  import opened Options
  import opened SkillConfig
  import opened SkillEdits
  import opened SkillToml

  /** How undoing the configuration after a failed reload can itself go wrong. */
  datatype Rollback = Undone | WriteFailed(created: bool) | ReplaceFailed

  /** The step that raises; `created` and `partial` say whether it left a file behind. */
  datatype Fault =
    | NoFault
    | CopyFails(partial: bool)
    | LoaderFails
    | ReadConfigFails
    | WriteConfigFails(created: bool)
    | MovePackageFails
    | LoadCheckFails
    | ReplaceConfigFails
    | ReloadFails(rollback: Rollback)

  datatype Outcome = Promoted | Unavailable | Failed

  class WorkspaceFiles {
    var config: string
    var destination: Option<string>
    var tempPackage: Option<string>
    /** Temporary configuration files lying beside `workspace.toml`. */
    var tempConfigs: multiset<string>

    constructor (config: string)
      ensures this.config == config && destination == None && tempPackage == None && tempConfigs == multiset{}
    {
      this.config, destination, tempPackage, tempConfigs := config, None, None, multiset{};
    }

    /** `parsed` and `reparses` are the TOML parser's answers, `path` the destination's path. When they are
        TOML's reading of the two texts, the new configuration is the accepted addition to the old one. */
    method PromoteAndRegister(package: string, path: string, parsed: Parsed, reparses: bool, fault: Fault)
      returns (outcome: Outcome)
      requires tempPackage == None
      modifies this
      ensures outcome.Unavailable? <==> old(destination).Some?
      ensures outcome.Promoted? <==>
                old(destination).None? && fault.NoFault? && AddSkillPath(old(config), parsed, path, reparses).Updated?
      ensures outcome.Promoted? ==>
                && AddSkillPath(old(config), parsed, path, reparses) == Updated(config)
                && destination == Some(package) && tempPackage == None && tempConfigs == old(tempConfigs)
      ensures outcome.Promoted? && ReadsToml(old(config), path, parsed, reparses) ==> AddPath(old(config), path) == Updated(config)
      ensures !outcome.Promoted? ==>
                ((config == old(config) && destination == old(destination) && tempPackage == None && tempConfigs == old(tempConfigs))
                 <==> old(destination).Some? || !LeavesTraces(old(config), parsed, path, reparses, fault))
    {
      hide AddSkillPath, ReadsToml, AddPath;
      if destination.Some? { return Unavailable; }
      if fault.CopyFails? {
        if fault.partial { tempPackage := Some(package); }
        return Failed;
      }
      tempPackage := Some(package);
      var raised := RegisterCopy(package, path, parsed, reparses, fault);
      if raised {
        tempPackage := None;
        return Failed;
      }
      if ReadsToml(old(config), path, parsed, reparses) { AnswersAreToml(old(config), path, parsed, reparses); }
      return Promoted;
    }

    /** Everything after the copy; on an exception only the copied package is left to its caller. */
    method RegisterCopy(package: string, path: string, parsed: Parsed, reparses: bool, fault: Fault) returns (raised: bool)
      requires tempPackage == Some(package) && destination == None && !fault.CopyFails?
      modifies this
      ensures raised <==> !(fault.NoFault? && AddSkillPath(old(config), parsed, path, reparses).Updated?)
      ensures !raised ==>
                && AddSkillPath(old(config), parsed, path, reparses) == Updated(config)
                && destination == Some(package) && tempPackage == None && tempConfigs == old(tempConfigs)
      ensures raised ==> destination == None
      ensures raised ==> ((config == old(config) && tempConfigs == old(tempConfigs))
                          <==> !LeavesTraces(old(config), parsed, path, reparses, fault))
    {
      hide AddSkillPath;
      if fault.LoaderFails? || fault.ReadConfigFails? { return true; }
      var added := AddSkillPath(config, parsed, path, reparses);
      if !added.Updated? { return true; }
      if fault.WriteConfigFails? {
        if fault.created { tempConfigs := tempConfigs + multiset{added.text}; }
        return true;
      }
      raised := SwapIn(config, added.text, fault);
    }

    /** Write the temporary configuration, move the package and the configuration into place, reload;
        on an exception remove the temporary configuration and the moved package. */
    method SwapIn(original: string, updated: string, fault: Fault) returns (raised: bool)
      requires tempPackage.Some? && destination == None && config == original
      requires !fault.CopyFails? && !fault.LoaderFails? && !fault.ReadConfigFails? && !fault.WriteConfigFails?
      modifies this
      ensures raised <==> !fault.NoFault?
      ensures !raised ==>
                && config == updated && tempConfigs == old(tempConfigs)
                && destination == old(tempPackage) && tempPackage == None
      ensures raised ==>
                && destination == None
                && config == (if fault.ReloadFails? && !fault.rollback.Undone? then updated else original)
                && tempConfigs == old(tempConfigs) + (if fault.ReloadFails? then StrayConfigs(original, fault.rollback) else multiset{})
    {
      var others := tempConfigs;
      tempConfigs := others + multiset{updated};
      raised := true;
      var moved := false;
      if !fault.MovePackageFails? {
        destination, tempPackage := tempPackage, None;
        moved := true;
        if !fault.LoadCheckFails? && !fault.ReplaceConfigFails? {
          config, tempConfigs := updated, others;
          if fault.ReloadFails? { RollBack(original, fault.rollback); } else { return false; }
        }
      }
      if !fault.ReloadFails? { tempConfigs := others; }
      if moved { destination := None; }
    }

    /** The configuration is restored through a second temporary file. */
    method RollBack(original: string, rollback: Rollback)
      modifies this`config, this`tempConfigs
      ensures config == if rollback.Undone? then original else old(config)
      ensures tempConfigs == old(tempConfigs) + StrayConfigs(original, rollback)
    {
      if rollback.WriteFailed? && !rollback.created { return; }
      var others := tempConfigs;
      tempConfigs := others + multiset{original};
      if rollback.Undone? {
        config, tempConfigs := original, others;
      }
    }
  }

  /** The temporary file a failed rollback leaves. */
  function StrayConfigs(original: string, rollback: Rollback): multiset<string> {
    if rollback.ReplaceFailed? || (rollback.WriteFailed? && rollback.created) then multiset{original} else multiset{}
  }

  /** Exactly the failures that promotion does not undo: a copy that stops half way, a temporary
      configuration whose writing fails after the file exists, and a rollback that itself fails. */
  predicate LeavesTraces(config: string, parsed: Parsed, path: string, reparses: bool, fault: Fault) {
    match fault
    case CopyFails(partial) => partial
    case WriteConfigFails(created) => created && AddSkillPath(config, parsed, path, reparses).Updated?
    case ReloadFails(rollback) =>
      var added := AddSkillPath(config, parsed, path, reparses);
      added.Updated? && (match rollback
                         case Undone => false
                         case WriteFailed(created) => created || added.text != config
                         case ReplaceFailed => true)
    case _ => false
  }

  // ---- What a promotion leaves in the configuration ----

  /** The parser's two answers are TOML's reading of the old text and of the new one. */
  predicate ReadsToml(config: string, path: string, parsed: Parsed, reparses: bool) {
    && parsed == (match Loads(config)
                  case Some(items) => Skills(items)
                  case None => NotStrings)
    && match AddSkillPath(config, parsed, path, true)
       case Updated(text) => reparses == Parses(text)
       case _ => true
  }

  lemma AnswersAreToml(config: string, path: string, parsed: Parsed, reparses: bool)
    requires ReadsToml(config, path, parsed, reparses)
    ensures AddSkillPath(config, parsed, path, reparses) == AddPath(config, path)
  {
    hide Parses, Loads, SkillsLineFrom;
  }

  /** After a promotion the configuration lists the new path, behind all that it listed before, exactly when
      the edited line is the top-level list's as `Gains` says. */
  lemma PromotedPathIsListedIff(before: string, after: string, path: string)
    returns (all: seq<string>, was: seq<string>, start: nat, end: nat, k: nat, j: nat)
    requires AddPath(before, path) == Updated(after)
    ensures Edited(before, path, all, was, start, end, k, j)
    ensures Loads(before) == Some(was) && path !in was
    ensures Loads(after) == Some(was + [path]) <==> Gains(all, k, j, Lead(before, all, k, start), was + [path])
  {
    hide Loads, SkillsLineFrom, Document, Holds, LocalEdit, Gains, Parses, Lead;
    all, was, start, end, k, j := AdditionGainsIff(before, path);
  }
}
