/** The block palette: the category table filled by `addCategory`, the
    template rewriter that turns `%n`, `%s` and `%b` into input widgets, and
    the pass that links the blocks of the code area into a chain. */
module Blocks {
  import opened Common
  import opened OrderedSets

  /** The HTML each placeholder letter is replaced by (written in pieces
      only so that the verifier can look inside them). */
  const NumberInput: string := "<input type=\"number\"" + " class=\"block-input number\"" + " value=\"0\">"
  const TextInput: string := "<input type=\"text\"" + " class=\"block-input string\"" + " value=\"\">"
  const BooleanSelect: string := "<select class=\"block-input boolean\">"
    + "<option>true</option>" + "<option>false</option>" + "</select>"

  /** Each widget is an HTML tag with no `%` in it. */
  predicate IsWidget(w: string)
  {
    |w| > 0 && w[0] == '<' && '%' !in w
  }

  lemma WidgetsAreTags()
    ensures IsWidget(NumberInput) && IsWidget(TextInput) && IsWidget(BooleanSelect)
  {
  }

  /** The character class `[a-z]` of the placeholder pattern. */
  predicate IsLower(c: char)
  {
    'a' <= c <= 'z'
  }

  /** The letters with a widget of their own. */
  predicate IsInputLetter(c: char)
  {
    c == 'n' || c == 's' || c == 'b'
  }

  /** The replacement for a match `%c`: the widget for n, s and b, and the
      match itself for every other letter. */
  function Replacement(c: char): (r: string)
    requires IsLower(c)
    ensures IsInputLetter(c) ==> IsWidget(r)
    ensures !IsInputLetter(c) <==> r == ['%', c]
  {
    WidgetsAreTags();
    match c
    case 'n' => NumberInput
    case 's' => TextInput
    case 'b' => BooleanSelect
    case _ => ['%', c]
  }

  /** No `%` of s is followed by n, s or b: there is nothing left to
      replace. */
  predicate Settled(s: string)
  {
    forall i :: 0 <= i < |s| - 1 && s[i] == '%' ==> !IsInputLetter(s[i + 1])
  }

  /** `formatBlockTemplate`: the global replace of `/%([a-z])/`, scanning
      left to right over non-overlapping matches. The result has nothing
      left to replace, and it starts with the template's own first character
      unless that begins a widget. */
  function FormatBlockTemplate(t: string): (r: string)
    ensures Settled(r)
    ensures |t| > 0 ==> |r| > 0 && (r[0] == t[0] || r[0] == '<')
  {
    if |t| == 0 then ""
    else if |t| >= 2 && t[0] == '%' && IsLower(t[1]) then
      var rest := FormatBlockTemplate(t[2..]);
      var rep := Replacement(t[1]);
      SettledJoin(rep, rest);
      rep + rest
    else
      var rest := FormatBlockTemplate(t[1..]);
      SettledJoin([t[0]], rest);
      [t[0]] + rest
  }

  lemma SettledJoin(a: string, b: string)
    requires Settled(b)
    requires IsWidget(a)
          || (|a| == 2 && a[0] == '%' && !IsInputLetter(a[1]) && a[1] != '%')
          || (|a| == 1 && (a[0] != '%' || |b| == 0 || !IsInputLetter(b[0])))
    ensures Settled(a + b)
  {
    var s := a + b;
    forall i | 0 <= i < |s| - 1 && s[i] == '%' ensures !IsInputLetter(s[i + 1]) {
      if i >= |a| {
        assert s[i] == b[i - |a|] && s[i + 1] == b[i - |a| + 1];
      } else {
        assert s[i] == a[i];
        if i == |a| - 1 {
          assert s[i + 1] == b[0];
        } else {
          assert s[i + 1] == a[i + 1];
        }
      }
    }
  }

  /** A template with nothing left to replace comes back unchanged; with a
      template that has no `%[a-z]` at all, in particular. */
  lemma {:induction false} SettledIsUnchanged(t: string)
    requires Settled(t)
    ensures FormatBlockTemplate(t) == t
  {
    if |t| > 0 {
      if |t| >= 2 && t[0] == '%' && IsLower(t[1]) {
        assert !IsInputLetter(t[1]);
        assert Settled(t[2..]) by {
          forall i | 0 <= i < |t[2..]| - 1 && t[2..][i] == '%' ensures !IsInputLetter(t[2..][i + 1]) {
            assert t[2..][i] == t[i + 2] && t[2..][i + 1] == t[i + 3];
          }
        }
        SettledIsUnchanged(t[2..]);
        assert t == ['%', t[1]] + t[2..];
      } else {
        assert Settled(t[1..]) by {
          forall i | 0 <= i < |t[1..]| - 1 && t[1..][i] == '%' ensures !IsInputLetter(t[1..][i + 1]) {
            assert t[1..][i] == t[i + 1] && t[1..][i + 1] == t[i + 2];
          }
        }
        SettledIsUnchanged(t[1..]);
        assert t == [t[0]] + t[1..];
      }
    }
  }

  /** Formatting a formatted template changes nothing. */
  lemma FormatIsIdempotent(t: string)
    ensures FormatBlockTemplate(FormatBlockTemplate(t)) == FormatBlockTemplate(t)
  {
    SettledIsUnchanged(FormatBlockTemplate(t));
  }

  /** One step of the scan: a match at the front is replaced, and any
      other first character is kept. */
  lemma FormatMatchFirst(t: string)
    requires |t| >= 2 && t[0] == '%' && IsLower(t[1])
    ensures FormatBlockTemplate(t) == Replacement(t[1]) + FormatBlockTemplate(t[2..])
  {
  }

  lemma FormatKeepFirst(t: string)
    requires |t| > 0 && !(|t| >= 2 && t[0] == '%' && IsLower(t[1]))
    ensures FormatBlockTemplate(t) == [t[0]] + FormatBlockTemplate(t[1..])
  {
  }

  /** The replacement works piece by piece: a template split anywhere but
      just after a `%` formats as its two halves do. */
  lemma {:induction false} FormatDistributes(a: string, b: string)
    requires |a| == 0 || a[|a| - 1] != '%'
    ensures FormatBlockTemplate(a + b) == FormatBlockTemplate(a) + FormatBlockTemplate(b)
  {
    if |a| == 0 {
      assert a + b == b;
    } else if |a| >= 2 && a[0] == '%' && IsLower(a[1]) {
      assert |a[2..]| == 0 || a[2..][|a[2..]| - 1] == a[|a| - 1];
      FormatDistributes(a[2..], b);
      DistributesAfterMatch(a, b);
    } else {
      assert |a[1..]| == 0 || a[1..][|a[1..]| - 1] == a[|a| - 1];
      FormatDistributes(a[1..], b);
      DistributesAfterKeep(a, b);
    }
  }

  lemma DropAppend(a: string, b: string, n: nat)
    requires n <= |a|
    ensures (a + b)[n..] == a[n..] + b
    ensures forall i :: 0 <= i < n ==> (a + b)[i] == a[i]
  {
  }

  lemma DistributesAfterMatch(a: string, b: string)
    requires |a| >= 2 && a[0] == '%' && IsLower(a[1])
    requires FormatBlockTemplate(a[2..] + b) == FormatBlockTemplate(a[2..]) + FormatBlockTemplate(b)
    ensures FormatBlockTemplate(a + b) == FormatBlockTemplate(a) + FormatBlockTemplate(b)
  {
    var t := a + b;
    DropAppend(a, b, 2);
    FormatMatchFirst(t);
    FormatMatchFirst(a);
    var r, x, y := Replacement(a[1]), FormatBlockTemplate(a[2..]), FormatBlockTemplate(b);
    assert (r + x) + y == r + (x + y);
  }

  lemma DistributesAfterKeep(a: string, b: string)
    requires |a| > 0 && a[|a| - 1] != '%' && !(|a| >= 2 && a[0] == '%' && IsLower(a[1]))
    requires FormatBlockTemplate(a[1..] + b) == FormatBlockTemplate(a[1..]) + FormatBlockTemplate(b)
    ensures FormatBlockTemplate(a + b) == FormatBlockTemplate(a) + FormatBlockTemplate(b)
  {
    var t := a + b;
    DropAppend(a, b, 1);
    FormatKeepFirst(t);
    FormatKeepFirst(a);
    var x, y := FormatBlockTemplate(a[1..]), FormatBlockTemplate(b);
    assert ([a[0]] + x) + y == [a[0]] + (x + y);
  }

  /** Each widget letter after a `%` becomes its widget. */
  lemma InputPlaceholders()
    ensures FormatBlockTemplate("%n") == NumberInput
    ensures FormatBlockTemplate("%s") == TextInput
    ensures FormatBlockTemplate("%b") == BooleanSelect
  {
    assert "%n"[2..] == "" && "%s"[2..] == "" && "%b"[2..] == "";
  }

  /** Any other lower-case letter after a `%` is kept, as in the `%m` of
      `%m.costume`. */
  lemma OtherPlaceholderKept(c: char)
    requires IsLower(c) && !IsInputLetter(c)
    ensures FormatBlockTemplate(['%', c]) == ['%', c]
  {
    assert ['%', c][2..] == [];
  }

  /** A `%` followed by anything but a lower-case letter is kept, and so is
      a `%` at the very end, as in `set volume to %n%`. */
  lemma LonePercentKept(c: char, rest: string)
    requires !IsLower(c)
    ensures FormatBlockTemplate(['%', c] + rest) == ['%'] + FormatBlockTemplate([c] + rest)
    ensures FormatBlockTemplate("%") == "%"
  {
    assert (['%', c] + rest)[1..] == [c] + rest;
    assert "%"[1..] == "";
  }

  lemma TrailingPercentAfterNumber()
    ensures FormatBlockTemplate("%n%") == NumberInput + "%"
  {
    assert "%n%"[2..] == "%";
    assert "%"[1..] == "";
  }

  /** Templates shaped like `set volume to %n%`: plain text, then a number
      placeholder, then a closing `%` that stays. */
  lemma NumberThenPercent(a: string)
    requires Settled(a) && (|a| == 0 || a[|a| - 1] != '%')
    ensures FormatBlockTemplate(a + "%n%") == a + NumberInput + "%"
  {
    SettledIsUnchanged(a);
    FormatDistributes(a, "%n%");
    TrailingPercentAfterNumber();
    AppendIsAssociative(a, NumberInput, "%");
  }

  lemma AppendIsAssociative(x: string, y: string, z: string)
    ensures x + (y + z) == x + y + z
  {
  }

  /** An entry of a category's block list (`type` and `returns` are keywords here). */
  datatype BlockInfo = BlockInfo(blockType: string, template: string, params: seq<string>,
                                 hasStack: bool, hasElse: bool, resultType: Option<string>)

  datatype Category = Category(color: string, blocks: seq<BlockInfo>)

  /** A block without stack, else branch or result. */
  function Plain(blockType: string, template: string, params: seq<string>): (b: BlockInfo)
    ensures b.blockType == blockType && b.template == template && b.params == params
    ensures !b.hasStack && !b.hasElse && b.resultType == None
  {
    BlockInfo(blockType, template, params, false, false, None)
  }

  /** The block lists `initializeBlockCategories` installs. */
  function MotionBlocks(): seq<BlockInfo>
  {
    [ Plain("move_steps", "move %n steps", ["number"]),
      Plain("turn_right", "turn right %n degrees", ["number"]),
      Plain("turn_left", "turn left %n degrees", ["number"]),
      Plain("goto_xy", "go to x: %n y: %n", ["number", "number"]),
      Plain("glide", "glide %n secs to x: %n y: %n", ["number", "number", "number"]) ]
  }

  function ControlBlocks(): seq<BlockInfo>
  {
    [ Plain("wait", "wait %n seconds", ["number"]),
      BlockInfo("repeat", "repeat %n", ["number"], true, false, None),
      BlockInfo("forever", "forever", [], true, false, None),
      BlockInfo("if", "if %b then", ["boolean"], true, false, None),
      BlockInfo("if_else", "if %b then", ["boolean"], true, true, None) ]
  }

  function LooksBlocks(): seq<BlockInfo>
  {
    [ Plain("say", "say %s", ["string"]),
      Plain("think", "think %s", ["string"]),
      Plain("show", "show", []),
      Plain("hide", "hide", []),
      Plain("change_costume", "switch costume to %m.costume", ["costume"]) ]
  }

  function SoundBlocks(): seq<BlockInfo>
  {
    [ Plain("play_sound", "play sound %m.sound", ["sound"]),
      Plain("stop_sounds", "stop all sounds", []),
      Plain("change_volume", "change volume by %n", ["number"]),
      Plain("set_volume", "set volume to %n%", ["number"]) ]
  }

  function SensingBlocks(): seq<BlockInfo>
  {
    [ BlockInfo("touching", "touching %m.sprite?", ["sprite"], false, false, Some("boolean")),
      Plain("ask", "ask %s and wait", ["string"]),
      BlockInfo("mouse_x", "mouse x", [], false, false, Some("number")),
      BlockInfo("mouse_y", "mouse y", [], false, false, Some("number")),
      BlockInfo("key_pressed", "key %m.key pressed?", ["key"], false, false, Some("boolean")) ]
  }

  function OperatorsBlocks(): seq<BlockInfo>
  {
    [ BlockInfo("add", "%n + %n", ["number", "number"], false, false, Some("number")),
      BlockInfo("subtract", "%n - %n", ["number", "number"], false, false, Some("number")),
      BlockInfo("multiply", "%n * %n", ["number", "number"], false, false, Some("number")),
      BlockInfo("divide", "%n / %n", ["number", "number"], false, false, Some("number")),
      BlockInfo("random", "pick random %n to %n", ["number", "number"], false, false, Some("number")) ]
  }

  function VariablesBlocks(): seq<BlockInfo>
  {
    [ Plain("set_var", "set %m.var to %s", ["variable", "string"]),
      Plain("change_var", "change %m.var by %n", ["variable", "number"]),
      Plain("show_var", "show variable %m.var", ["variable"]),
      Plain("hide_var", "hide variable %m.var", ["variable"]) ]
  }

  /** One block of the code area; the DOM element's `nextBlock` and
      `previousBlock` expando properties. */
  class Block {
    var nextBlock: Block?
    var previousBlock: Block?

    constructor()
      ensures nextBlock == null && previousBlock == null
    {
      nextBlock, previousBlock := null, null;
    }
  }

  /** The links `updateBlockConnections` sets: each block points to the one
      after it (the last to null) and each block but the first to the one
      before it. */
  ghost predicate Linked(blocks: seq<Block>)
    reads set i | 0 <= i < |blocks| :: blocks[i]
  {
    (forall i :: 0 <= i < |blocks| ==> blocks[i].nextBlock == if i + 1 < |blocks| then blocks[i + 1] else null)
    && (forall i :: 0 < i < |blocks| ==> blocks[i].previousBlock == blocks[i - 1])
  }

  /** In a linked chain, going forward then back (or back then forward)
      returns to the same block. */
  lemma LinksAreInverse(blocks: seq<Block>, i: int)
    requires Linked(blocks) && 0 <= i < |blocks|
    ensures i + 1 < |blocks| ==> blocks[i].nextBlock != null && blocks[i].nextBlock.previousBlock == blocks[i]
    ensures i > 0 ==> blocks[i].previousBlock != null && blocks[i].previousBlock.nextBlock == blocks[i]
    ensures blocks[i].nextBlock == null <==> i == |blocks| - 1
  {
    assert blocks[i].nextBlock == if i + 1 < |blocks| then blocks[i + 1] else null;
    if i + 1 < |blocks| {
      assert blocks[i + 1].previousBlock == blocks[i + 1 - 1];
    }
    if i > 0 {
      assert blocks[i].previousBlock == blocks[i - 1];
      assert blocks[i - 1].nextBlock == if i - 1 + 1 < |blocks| then blocks[i - 1 + 1] else null;
    }
  }

  /** Following `nextBlock` k times from a block. */
  ghost function Follow(b: Block?, k: nat): (r: Block?)
    reads *
  {
    if k == 0 || b == null then b else Follow(b.nextBlock, k - 1)
  }

  /** From the first block, k steps along `nextBlock` reach block k, and
      one more step past the last block reaches null. */
  lemma {:induction false} FollowReaches(blocks: seq<Block>, i: nat, k: nat)
    requires Linked(blocks) && i + k <= |blocks| && i < |blocks|
    ensures Follow(blocks[i], k) == if i + k < |blocks| then blocks[i + k] else null
    decreases k
  {
    if k > 0 {
      assert blocks[i].nextBlock == if i + 1 < |blocks| then blocks[i + 1] else null;
      if i + 1 < |blocks| {
        FollowReaches(blocks, i + 1, k - 1);
      }
    }
  }

  /** `updateBlockConnections`, over the blocks of the code area in document
      order (distinct elements, as `querySelectorAll` yields them). The
      first block's `previousBlock` is left as it was. */
  method UpdateBlockConnections(blocks: seq<Block>)
    requires NoDup(blocks)
    modifies set i | 0 <= i < |blocks| :: blocks[i]
    ensures Linked(blocks)
    ensures |blocks| > 0 ==> blocks[0].previousBlock == old(blocks[0].previousBlock)
  {
    var index := 0;
    while index < |blocks|
      invariant 0 <= index <= |blocks|
      invariant forall i :: 0 <= i < index ==> blocks[i].nextBlock == if i + 1 < |blocks| then blocks[i + 1] else null
      invariant forall i :: 0 < i < index ==> blocks[i].previousBlock == blocks[i - 1]
      invariant |blocks| > 0 ==> blocks[0].previousBlock == old(blocks[0].previousBlock)
    {
      var block := blocks[index];
      block.nextBlock := if index + 1 < |blocks| then blocks[index + 1] else null;
      if index > 0 {
        block.previousBlock := blocks[index - 1];
      }
      index := index + 1;
    }
  }

  /** The category names in the order they are installed. */
  const CategoryNames: seq<string> := ["motion", "control", "looks", "sound", "sensing", "operators", "variables"]

  lemma CategoryNamesAreDistinct()
    ensures NoDup(CategoryNames)
  {
    var s := CategoryNames;
    assert s[0][0] == 'm' && s[1][0] == 'c' && s[2][0] == 'l' && s[3][0] == 's';
    assert s[4][0] == 's' && s[5][0] == 'o' && s[6][0] == 'v';
    assert |s[3]| == 5 && |s[4]| == 7;
  }

  /** `addCategory` in that order lists the names in that order. */
  lemma AddsInOrder()
    ensures Add(Add(Add(Add(Add(Add(Add([], "motion"), "control"), "looks"), "sound"), "sensing"), "operators"), "variables")
         == CategoryNames
  {
    CategoryNamesAreDistinct();
    var s := CategoryNames;
    AddExtendsPrefix(s, 0);
    AddExtendsPrefix(s, 1);
    AddExtendsPrefix(s, 2);
    AddExtendsPrefix(s, 3);
    AddExtendsPrefix(s, 4);
    AddExtendsPrefix(s, 5);
    AddExtendsPrefix(s, 6);
    assert s[..0] == [] && s[..7] == s;
  }

  class BlockManager {
    /** The `blockCategories` Map: `categoryNames` is its key order. */
    var categoryNames: seq<string>
    var blockCategories: map<string, Category>

    ghost predicate Valid()
      reads this
    {
      NoDup(categoryNames) && (forall n :: n in blockCategories <==> n in categoryNames)
    }

    /** The constructor with its categories installed in turn, as
      `initializeBlockCategories` does. */
    constructor()
      ensures Valid()
      ensures categoryNames == CategoryNames
      ensures blockCategories == map[
        "motion" := Category("#4C97FF", MotionBlocks()),
        "control" := Category("#FFAB19", ControlBlocks()),
        "looks" := Category("#9966FF", LooksBlocks()),
        "sound" := Category("#D65CD6", SoundBlocks()),
        "sensing" := Category("#4CBFE6", SensingBlocks()),
        "operators" := Category("#40BF4A", OperatorsBlocks()),
        "variables" := Category("#FF8C1A", VariablesBlocks())]
    {
      categoryNames, blockCategories := [], map[];
      new;
      AddCategory("motion", "#4C97FF", MotionBlocks());
      AddCategory("control", "#FFAB19", ControlBlocks());
      AddCategory("looks", "#9966FF", LooksBlocks());
      AddCategory("sound", "#D65CD6", SoundBlocks());
      AddCategory("sensing", "#4CBFE6", SensingBlocks());
      AddCategory("operators", "#40BF4A", OperatorsBlocks());
      AddCategory("variables", "#FF8C1A", VariablesBlocks());
      AddsInOrder();
    }

    /** `addCategory`: the entry under `name` is replaced, keeping its place
      in the key order. */
    method AddCategory(name: string, color: string, blocks: seq<BlockInfo>)
      requires Valid()
      modifies this
      ensures Valid()
      ensures blockCategories == old(blockCategories)[name := Category(color, blocks)]
      ensures categoryNames == Add(old(categoryNames), name)
    {
      AddKeepsNoDup(categoryNames, name);
      blockCategories := blockCategories[name := Category(color, blocks)];
      categoryNames := Add(categoryNames, name);
    }
  }
}
