/** The conversion of a loaded story into the editor's two buffers
    (`deserialize`): the body buffer and the notes buffer, each a flat list
    of typed text blocks. Only the first part of the body and the first part
    of the notes are converted. */
module EditorSlate {
  import opened Wrappers
  import opened SeqFacts

  /** A paragraph of the story: its element tag and its text. */
  datatype Paragraph = Paragraph(tag: string, text: string)

  datatype StoryScene = StoryScene(name: string, children: seq<Paragraph>)

  datatype StoryPart = StoryPart(children: seq<StoryScene>)

  /** The story: the body's title and parts, and the notes' parts. */
  datatype Story = Story(title: string, body: seq<StoryPart>, notes: seq<StoryPart>)

  /** A Slate block holding one text node. */
  datatype FlatBlock = FlatBlock(kind: string, text: string)

  datatype Buffers = Buffers(body: seq<FlatBlock>, notes: seq<FlatBlock>)

  //---------------------------------------------------------------------------
  // The converters
  //---------------------------------------------------------------------------

  /** `Paragraph2Slate`: the tag becomes the block type, the text is kept. */
  function ParagraphBlock(p: Paragraph): FlatBlock {
    FlatBlock(p.tag, p.text)
  }

  /** `Scene2Slate`: a scene-name block followed by the scene's paragraphs. */
  function SceneBlocks(sc: StoryScene): (r: seq<FlatBlock>)
    ensures |r| == 1 + |sc.children|
    ensures r[0] == FlatBlock("scenename", sc.name)
    ensures forall i :: 0 <= i < |sc.children| ==> r[i + 1] == ParagraphBlock(sc.children[i])
  {
    [FlatBlock("scenename", sc.name)] + ParagraphBlocks(sc.children)
  }

  /** `map(Paragraph2Slate)` over a scene's paragraphs. */
  function ParagraphBlocks(ps: seq<Paragraph>): (r: seq<FlatBlock>)
    ensures |r| == |ps|
    ensures forall i :: 0 <= i < |ps| ==> r[i] == ParagraphBlock(ps[i])
  {
    if ps == [] then [] else [ParagraphBlock(ps[0])] + ParagraphBlocks(ps[1..])
  }

  /** The number of blocks the scenes flatten to: one per scene and one per
      paragraph. */
  function Size(scenes: seq<StoryScene>): nat {
    if scenes == [] then 0 else 1 + |scenes[0].children| + Size(scenes[1..])
  }

  /** `Part2Slate`: the scenes' block lists, concatenated in order (`map`
      followed by `flat(1)`). */
  function PartBlocks(scenes: seq<StoryScene>): (r: seq<FlatBlock>)
    ensures |r| == Size(scenes)
  {
    if scenes == [] then [] else SceneBlocks(scenes[0]) + PartBlocks(scenes[1..])
  }

  /** `Story2Slate`: the title block, the first part's blocks and a trailing
      empty paragraph. */
  function BodyBlocks(title: string, part: StoryPart): seq<FlatBlock> {
    [FlatBlock("title", title)] + PartBlocks(part.children) + [FlatBlock("p", "")]
  }

  /** `deserialize`. A story without a first body part or without a first
      notes part makes the conversion fail (the code reads `children` of an
      undefined part). */
  function Deserialize(s: Story): (r: Option<Buffers>)
    ensures r.None? <==> s.body == [] || s.notes == []
    ensures r.Some? ==> r.value.notes == PartBlocks(s.notes[0].children)
    ensures r.Some? ==> |r.value.notes| == Size(s.notes[0].children)
  {
    if s.body == [] || s.notes == [] then None
    else Some(Buffers(BodyBlocks(s.title, s.body[0]), PartBlocks(s.notes[0].children)))
  }

  //---------------------------------------------------------------------------
  // Properties
  //---------------------------------------------------------------------------

  /** The body starts with the title, ends with one empty paragraph, holds
      the first part's blocks in between, and has two blocks more than the
      part flattens to. */
  lemma BodyShape(s: Story)
    requires s.body != [] && s.notes != []
    ensures var b := Deserialize(s).value.body;
      |b| == 2 + Size(s.body[0].children)
      && b[0] == FlatBlock("title", s.title)
      && b[|b| - 1] == FlatBlock("p", "")
      && b[1..|b| - 1] == PartBlocks(s.body[0].children)
  {
    var b := Deserialize(s).value.body;
    assert b == [FlatBlock("title", s.title)] + PartBlocks(s.body[0].children) + [FlatBlock("p", "")];
  }

  /** Parts after the first play no part in the result. */
  lemma OnlyFirstParts(s: Story, t: Story)
    requires s.title == t.title && s.body != [] && s.notes != [] && t.body != [] && t.notes != []
    requires s.body[0] == t.body[0] && s.notes[0] == t.notes[0]
    ensures Deserialize(s) == Deserialize(t)
  {
  }

  /** Scene `k` flattens to the blocks starting where the earlier scenes'
      blocks end: the order of scenes and paragraphs is kept. */
  lemma SceneAt(scenes: seq<StoryScene>, k: nat)
    requires k < |scenes|
    ensures Size(scenes[..k]) + 1 + |scenes[k].children| <= |PartBlocks(scenes)|
    ensures PartBlocks(scenes)[Size(scenes[..k]) .. Size(scenes[..k]) + 1 + |scenes[k].children|]
         == SceneBlocks(scenes[k])
  {
    PartBlocksSplit(scenes, k);
    FromScene(scenes, k);
    SliceMiddle(PartBlocks(scenes), PartBlocks(scenes[..k]), PartBlocks(scenes[k..]),
                SceneBlocks(scenes[k]), PartBlocks(scenes[k + 1..]),
                Size(scenes[..k]), Size(scenes[..k]) + 1 + |scenes[k].children|);
  }

  /** The blocks from scene `k` on start with scene `k`'s. */
  lemma FromScene(scenes: seq<StoryScene>, k: nat)
    requires k < |scenes|
    ensures PartBlocks(scenes[k..]) == SceneBlocks(scenes[k]) + PartBlocks(scenes[k + 1..])
  {
    assert scenes[k..][0] == scenes[k] && scenes[k..][1..] == scenes[k + 1..];
  }

  /** The blocks of a list of scenes are the blocks of its first `k` scenes
      followed by those of the rest. */
  lemma {:induction false} PartBlocksSplit(scenes: seq<StoryScene>, k: nat)
    requires k <= |scenes|
    ensures PartBlocks(scenes) == PartBlocks(scenes[..k]) + PartBlocks(scenes[k..])
  {
    if k == 0 {
      assert scenes[..0] == [] && scenes[0..] == scenes;
    } else {
      PartBlocksSplit(scenes[1..], k - 1);
      TakeTail(scenes, k);
      assert scenes[1..][k - 1..] == scenes[k..];
      Associative(SceneBlocks(scenes[0]), PartBlocks(scenes[1..][..k - 1]), PartBlocks(scenes[k..]));
    }
  }

  /** Wherever a scene's blocks sit in a buffer (as `SceneAt` places
      them), its `i`-th paragraph sits `1 + i` blocks further on, with the
      paragraph's tag as its type and its text unchanged. */
  lemma ParagraphAt(r: seq<FlatBlock>, lo: nat, sc: StoryScene, i: nat)
    requires lo + 1 + |sc.children| <= |r| && r[lo .. lo + 1 + |sc.children|] == SceneBlocks(sc)
    requires i < |sc.children|
    ensures r[lo + 1 + i] == FlatBlock(sc.children[i].tag, sc.children[i].text)
  {
    assert SceneBlocks(sc)[i + 1] == ParagraphBlock(sc.children[i]);
    assert r[lo .. lo + 1 + |sc.children|][i + 1] == r[lo + 1 + i];
  }
}
