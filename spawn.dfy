/** SpawnController: the voice-command matcher behind the recognised text.
    A phrase is recorded, stripped of punctuation and split into words; each
    word runs the first command whose text matches it ignoring case, and only
    Spawn commands have an effect, which the model logs as the prefab
    instantiated. */
module Spawn {
  import opened Common
  import opened Text

  datatype CommandType = Spawn | Delete | Find | Change

  /** A command of the command list. The prefab is an opaque handle; the
      command's colour is not part of this model. */
  datatype Command = Command(text: string, prefab: nat, commandType: CommandType)

  /** The words of a phrase: the text without punctuation, split on
      whitespace, empty pieces included. */
  function Words(text: string, isPunctuation: char -> bool): seq<string> {
    Split(Keep(text, isPunctuation), IsWhiteSpace)
  }

  predicate Matches(command: Command, word: string, toLower: char -> char) {
    MapChars(command.text, toLower) == MapChars(word, toLower)
  }

  /** Index of the first command matching `word`, or |commands|. */
  function FirstMatch(commands: seq<Command>, word: string, toLower: char -> char): (i: nat)
    ensures i <= |commands|
    ensures forall j :: 0 <= j < i ==> !Matches(commands[j], word, toLower)
    ensures i < |commands| ==> Matches(commands[i], word, toLower)
  {
    if commands == [] then 0
    else if Matches(commands[0], word, toLower) then 0
    else 1 + FirstMatch(commands[1..], word, toLower)
  }

  /** FirstOrDefault over the command list; None stands for null. */
  function FindCommand(commands: seq<Command>, word: string, toLower: char -> char): (r: Option<Command>)
    ensures r.Some? ==> r.value in commands && Matches(r.value, word, toLower)
  {
    var i := FirstMatch(commands, word, toLower);
    if i < |commands| then Some(commands[i]) else None
  }

  /** The command found is the first match, and there is none exactly when no
      command matches. */
  lemma FindCommandIsFirstMatch(commands: seq<Command>, word: string, toLower: char -> char)
    ensures var r := FindCommand(commands, word, toLower);
      && (r.None? <==> forall j :: 0 <= j < |commands| ==> !Matches(commands[j], word, toLower))
      && (r.Some? ==> exists i :: 0 <= i < |commands| && commands[i] == r.value && Matches(commands[i], word, toLower)
                                  && forall j :: 0 <= j < i ==> !Matches(commands[j], word, toLower))
  {
    var i := FirstMatch(commands, word, toLower);
    if i < |commands| {
      assert commands[i] == FindCommand(commands, word, toLower).value;
    }
  }

  /** The commands run for a list of words, in word order. */
  function RunsFor(commands: seq<Command>, words: seq<string>, toLower: char -> char): seq<Command>
  {
    if words == [] then []
    else
      var pre := RunsFor(commands, words[..|words| - 1], toLower);
      match FindCommand(commands, words[|words| - 1], toLower)
      case None => pre
      case Some(c) => pre + [c]
  }

  /** RunCommand's effect: only a Spawn command instantiates its prefab. */
  function Effect(command: Command): seq<nat> {
    if command.commandType == Spawn then [command.prefab] else []
  }

  function Effects(runs: seq<Command>): seq<nat> {
    if runs == [] then [] else Effects(runs[..|runs| - 1]) + Effect(runs[|runs| - 1])
  }

  /** The prefabs spawned for a list of words. */
  function SpawnsFor(commands: seq<Command>, words: seq<string>, toLower: char -> char): seq<nat> {
    Effects(RunsFor(commands, words, toLower))
  }

  /** The number of words whose command is `c`. */
  function WordsRunning(commands: seq<Command>, words: seq<string>, toLower: char -> char, c: Command): nat {
    if words == [] then 0
    else WordsRunning(commands, words[..|words| - 1], toLower, c)
         + (if FindCommand(commands, words[|words| - 1], toLower) == Some(c) then 1 else 0)
  }

  lemma EffectsAppend(a: seq<Command>, b: seq<Command>)
    ensures Effects(a + b) == Effects(a) + Effects(b)
    decreases |b|
  {
    if b == [] {
      assert a + b == a;
    } else {
      var b' := b[..|b| - 1];
      assert (a + b)[..|a + b| - 1] == a + b';
      EffectsAppend(a, b');
    }
  }

  /** Running the words of two lists in turn runs the commands of each. */
  lemma {:induction false} RunsAppend(commands: seq<Command>, a: seq<string>, b: seq<string>, toLower: char -> char)
    ensures RunsFor(commands, a + b, toLower) == RunsFor(commands, a, toLower) + RunsFor(commands, b, toLower)
    decreases |b|
  {
    if b == [] {
      assert a + b == a;
    } else {
      var b' := b[..|b| - 1];
      assert (a + b)[..|a + b| - 1] == a + b';
      assert (a + b)[|a + b| - 1] == b[|b| - 1];
      RunsAppend(commands, a, b', toLower);
    }
  }

  /** The prefabs spawned for two lists of words, in turn. */
  lemma SpawnsAppend(commands: seq<Command>, a: seq<string>, b: seq<string>, toLower: char -> char)
    ensures SpawnsFor(commands, a + b, toLower) == SpawnsFor(commands, a, toLower) + SpawnsFor(commands, b, toLower)
  {
    RunsAppend(commands, a, b, toLower);
    EffectsAppend(RunsFor(commands, a, toLower), RunsFor(commands, b, toLower));
  }

  /** Command c runs once for every word that finds it. */
  lemma {:induction false} RunsCount(commands: seq<Command>, words: seq<string>, toLower: char -> char, c: Command)
    ensures multiset(RunsFor(commands, words, toLower))[c] == WordsRunning(commands, words, toLower, c)
    decreases |words|
  {
    if words != [] {
      RunsCount(commands, words[..|words| - 1], toLower, c);
    }
  }

  /** A word occurring k times runs its command at least k times (more when
      other words find the same command). */
  lemma {:induction false} RepeatedWordRunsRepeatedly(commands: seq<Command>, words: seq<string>, toLower: char -> char,
                                                      w: string, c: Command)
    requires FindCommand(commands, w, toLower) == Some(c)
    ensures multiset(RunsFor(commands, words, toLower))[c] >= multiset(words)[w]
    decreases |words|
  {
    RunsCount(commands, words, toLower, c);
    if words != [] {
      var pre := words[..|words| - 1];
      assert words == pre + [words[|words| - 1]];
      RepeatedWordRunsRepeatedly(commands, pre, toLower, w, c);
      RunsCount(commands, pre, toLower, c);
    }
  }

  /** Every command run is one of the list's commands, and each word runs at
      most one. */
  lemma {:induction false} RunsComeFromList(commands: seq<Command>, words: seq<string>, toLower: char -> char)
    ensures forall c :: c in RunsFor(commands, words, toLower) ==> c in commands
    ensures |RunsFor(commands, words, toLower)| <= |words|
    decreases |words|
  {
    if words != [] {
      RunsComeFromList(commands, words[..|words| - 1], toLower);
    }
  }

  /** Every prefab spawned is that of a Spawn command among those run. */
  lemma {:induction false} SpawnsComeFromSpawnCommands(runs: seq<Command>)
    ensures forall p :: p in Effects(runs) ==> exists c :: c in runs && c.commandType == Spawn && c.prefab == p
    decreases |runs|
  {
    if runs != [] {
      var pre := runs[..|runs| - 1];
      var last := runs[|runs| - 1];
      SpawnsComeFromSpawnCommands(pre);
      forall p | p in Effects(runs)
        ensures exists c :: c in runs && c.commandType == Spawn && c.prefab == p
      {
        if p in Effects(pre) {
          var c :| c in pre && c.commandType == Spawn && c.prefab == p;
          assert c in runs;
        } else {
          assert last in runs;
        }
      }
    }
  }

  /** The words carry every character of the phrase except punctuation and
      whitespace, in order; there is one word more than whitespace
      characters, and no word holds punctuation or whitespace. */
  lemma WordsOfPhrase(text: string, isPunctuation: char -> bool)
    ensures var kept := Keep(text, isPunctuation);
      && Concat(Words(text, isPunctuation)) == Keep(kept, IsWhiteSpace)
      && |Words(text, isPunctuation)| == CountWhere(kept, IsWhiteSpace) + 1
      && |kept| + CountWhere(text, isPunctuation) == |text|
    ensures forall k, i :: 0 <= k < |Words(text, isPunctuation)| && 0 <= i < |Words(text, isPunctuation)[k]| ==>
      !isPunctuation(Words(text, isPunctuation)[k][i]) && !IsWhiteSpace(Words(text, isPunctuation)[k][i])
  {
    var kept := Keep(text, isPunctuation);
    SplitPieces(kept, IsWhiteSpace);
    KeepLength(text, isPunctuation);
    forall k, i | 0 <= k < |Words(text, isPunctuation)| && 0 <= i < |Words(text, isPunctuation)[k]|
      ensures !isPunctuation(Words(text, isPunctuation)[k][i])
    {
      SplitKeepsChars(kept, IsWhiteSpace, k, i);
    }
  }

  /** A character of a piece of Split is a character of the input. */
  lemma {:induction false} SplitKeepsChars(s: string, isSep: char -> bool, k: nat, i: nat)
    requires k < |Split(s, isSep)| && i < |Split(s, isSep)[k]|
    ensures Split(s, isSep)[k][i] in s
    decreases |s|
  {
    var j := FirstSep(s, isSep);
    if j < |s| {
      if k == 0 {
        assert Split(s, isSep)[0] == s[..j];
        assert s[..j][i] == s[i];
      } else {
        var tail := s[j + 1..];
        assert Split(s, isSep)[k] == Split(tail, isSep)[k - 1];
        SplitKeepsChars(tail, isSep, k - 1, i);
        assert Split(tail, isSep)[k - 1][i] in tail;
      }
    }
  }

  /** The scene object that owns the matcher. */
  class SpawnController {
    const commands: seq<Command>
    /** char.IsPunctuation and the culture's ToLower, given. */
    const isPunctuation: char -> bool
    const toLower: char -> char
    var recognizedPhrases: seq<string>
    var currentPhrase: string
    /** The prefabs instantiated so far, in order. */
    var spawned: seq<nat>

    constructor (commands: seq<Command>, isPunctuation: char -> bool, toLower: char -> char)
      ensures this.commands == commands && this.isPunctuation == isPunctuation && this.toLower == toLower
      ensures recognizedPhrases == [] && currentPhrase == "" && spawned == []
    {
      this.commands := commands;
      this.isPunctuation := isPunctuation;
      this.toLower := toLower;
      recognizedPhrases := [];
      currentPhrase := "";
      spawned := [];
    }

    /** SetRecognizedText: records the phrase once, at the end, and spawns
        for its words in order. */
    method SetRecognizedText(text: string)
      modifies this
      ensures recognizedPhrases == old(recognizedPhrases) + [text]
      ensures spawned == old(spawned) + SpawnsFor(commands, Words(text, isPunctuation), toLower)
      ensures currentPhrase == old(currentPhrase)
    {
      recognizedPhrases := recognizedPhrases + [text];
      var output := Keep(text, isPunctuation);
      var splittedText := Split(output, IsWhiteSpace);
      for i := 0 to |splittedText|
        invariant spawned == old(spawned) + SpawnsFor(commands, splittedText[..i], toLower)
        invariant recognizedPhrases == old(recognizedPhrases) + [text] && currentPhrase == old(currentPhrase)
      {
        var word := splittedText[i];
        var foundCommand := FindCommand(commands, word, toLower);
        ghost var before := spawned;
        ghost var effect := if foundCommand.Some? then Effect(foundCommand.value) else [];
        if foundCommand.Some? {
          RunCommand(foundCommand.value);
        } else {
          assert before + effect == before;
        }
        SpawnsStep(commands, splittedText, i, toLower);
        AppendAssoc(old(spawned), SpawnsFor(commands, splittedText[..i], toLower), effect);
      }
      assert splittedText[..|splittedText|] == splittedText;
    }

    method SetCurrentText(text: string)
      modifies this
      ensures currentPhrase == text
      ensures recognizedPhrases == old(recognizedPhrases) && spawned == old(spawned)
    {
      currentPhrase := text;
    }

    /** RunCommand: the switch on the command type has a Spawn case only. */
    method RunCommand(command: Command)
      modifies this
      ensures spawned == old(spawned) + Effect(command)
      ensures recognizedPhrases == old(recognizedPhrases) && currentPhrase == old(currentPhrase)
    {
      match command.commandType {
        case Spawn =>
          SpawnObject(command.prefab);
        case _ =>
      }
    }

    /** SpawnObject: Instantiate, logged. */
    method SpawnObject(prefab: nat)
      modifies this
      ensures spawned == old(spawned) + [prefab]
      ensures recognizedPhrases == old(recognizedPhrases) && currentPhrase == old(currentPhrase)
    {
      spawned := spawned + [prefab];
    }
  }

  /** The spawns for one more word: those for the words before it, then the
      effect of the command it finds, if any. */
  lemma SpawnsStep(commands: seq<Command>, words: seq<string>, i: nat, toLower: char -> char)
    requires i < |words|
    ensures var f := FindCommand(commands, words[i], toLower);
      SpawnsFor(commands, words[..i + 1], toLower)
        == SpawnsFor(commands, words[..i], toLower) + (if f.Some? then Effect(f.value) else [])
  {
    assert words[..i + 1][..i] == words[..i] && words[..i + 1][i] == words[i];
    AppendEffect(RunsFor(commands, words[..i], toLower), FindCommand(commands, words[i], toLower));
  }

  /** One more word's command appended to the runs adds its effect. */
  lemma AppendEffect(runs: seq<Command>, found: Option<Command>)
    ensures Effects(runs + (if found.Some? then [found.value] else []))
         == Effects(runs) + (if found.Some? then Effect(found.value) else [])
  {
    if found.Some? {
      assert (runs + [found.value])[..|runs|] == runs;
    } else {
      assert runs + [] == runs;
    }
  }
}
