/** The FFmpeg filter graph that `buildFFmpegCommand` (`src/api/export_controller.cpp`)
    emits for a list of masks, as tokens, and a small reader of such graphs.

    Images are terms over the source frame, so equality of images here is equality for every
    meaning of the filters. */
module FilterGraph {
  import opened Common

  datatype Mask = Mask(x: int, y: int, width: int, height: int, kind: string, strength: int)

  /** `[0:v]`, `[blur<i>]`, `[pixelate<i>]` and `[tmp<i>]`. */
  datatype Label = Input | Blur(i: nat) | Pixelate(i: nat) | Tmp(i: nat)

  datatype Filter =
    | Crop(width: int, height: int, x: int, y: int)
    | BoxBlur(strength: int)
    | ShrinkBy(factor: int)               // scale=iw/f:ih/f:flags=neighbor
    | ScaleTo(width: int, height: int)    // scale=w:h:flags=neighbor
    | Overlay(x: int, y: int)

  datatype Token = Pad(pad: Label) | F(filter: Filter) | Comma | Semi

  predicate Known(m: Mask) { m.kind == "blur" || m.kind == "pixelate" }

  function PixelSize(m: Mask): int { if m.strength > 1 then m.strength else 1 }

  // ----- what the builder emits -----

  function EffectFilters(m: Mask): seq<Filter> {
    var crop := Crop(m.width, m.height, m.x, m.y);
    if m.kind == "blur" then [crop, BoxBlur(m.strength)]
    else [crop, ShrinkBy(PixelSize(m)), ScaleTo(m.width, m.height)]
  }

  /** The label under which the overlay looks for mask i; anything but "blur" is "pixelate". */
  function LabelOf(m: Mask, i: nat): Label { if m.kind == "blur" then Blur(i) else Pixelate(i) }

  function Commas(filters: seq<Filter>): seq<Token>
    requires filters != []
  {
    [F(filters[0])] + if |filters| == 1 then [] else [Comma] + Commas(filters[1..])
  }

  function EffectChain(m: Mask, i: nat): seq<Token> {
    [Pad(Input)] + Commas(EffectFilters(m)) + [Pad(LabelOf(m, i))]
  }

  function EffectTokens(m: Mask, i: nat): seq<Token> {
    if Known(m) then EffectChain(m, i) + [Semi] else []
  }

  function OverlayTokens(masks: seq<Mask>, i: nat): seq<Token>
    requires i < |masks|
  {
    [Pad(LabelOf(masks[i], i)), F(Overlay(masks[i].x, masks[i].y))] +
    if i < |masks| - 1 then [Pad(Tmp(i)), Semi, Pad(Tmp(i))] else []
  }

  /** The crop chains of masks i and on; a mask of unknown kind gets none. */
  function EffectTail(masks: seq<Mask>, i: nat): seq<Token>
    requires i <= |masks|
    decreases |masks| - i
  {
    if i == |masks| then []
    else EffectTokens(masks[i], i) + EffectTail(masks, i + 1)
  }

  /** The overlays of masks i and on, after the pad of the image to draw on. */
  function OverlayTail(masks: seq<Mask>, i: nat): seq<Token>
    requires i <= |masks|
    decreases |masks| - i
  {
    if i == |masks| then []
    else OverlayTokens(masks, i) + OverlayTail(masks, i + 1)
  }

  function Graph(masks: seq<Mask>): seq<Token> {
    EffectTail(masks, 0) + [Pad(Input)] + OverlayTail(masks, 0)
  }

  datatype Command = Command(input: string, graph: Option<seq<Token>>, output: string)

  /** `buildFFmpegCommand`; without masks the file is only remuxed and there is no graph. */
  method BuildCommand(input: string, output: string, masks: seq<Mask>) returns (cmd: Command)
    ensures cmd == Command(input, if masks == [] then None else Some(Graph(masks)), output)
  {
    if masks == [] { return Command(input, None, output); }
    var effects := EmitEffects(masks);
    var overlays := EmitOverlays(masks);
    cmd := Command(input, Some(effects + [Pad(Input)] + overlays), output);
  }

  /** First loop: one crop chain per mask. */
  method EmitEffects(masks: seq<Mask>) returns (tokens: seq<Token>)
    ensures tokens == EffectTail(masks, 0)
  {
    tokens := [];
    for i := 0 to |masks|
      invariant tokens + EffectTail(masks, i) == EffectTail(masks, 0)
    {
      var m := masks[i];
      ghost var before := tokens;
      if m.kind == "blur" {
        tokens := tokens + [Pad(Input), F(Crop(m.width, m.height, m.x, m.y)), Comma, F(BoxBlur(m.strength)),
                            Pad(Blur(i)), Semi];
        BlurTokens(m, i);
      } else if m.kind == "pixelate" {
        var pixelSize := if m.strength > 1 then m.strength else 1;
        tokens := tokens + [Pad(Input), F(Crop(m.width, m.height, m.x, m.y)), Comma, F(ShrinkBy(pixelSize)),
                            Comma, F(ScaleTo(m.width, m.height)), Pad(Pixelate(i)), Semi];
        PixelateTokens(m, i);
      }
      AddEffect(before, tokens, masks, i);
    }
  }

  lemma AddEffect(before: seq<Token>, after: seq<Token>, masks: seq<Mask>, i: nat)
    requires i < |masks|
    requires after == if Known(masks[i]) then before + EffectTokens(masks[i], i) else before
    ensures after + EffectTail(masks, i + 1) == before + EffectTail(masks, i)
  {
    TailFrom(masks, i, EffectTokens(masks[i], i), EffectTail(masks, i + 1));
    Associative(before, EffectTokens(masks[i], i), EffectTail(masks, i + 1));
    if !Known(masks[i]) {
      assert before + EffectTokens(masks[i], i) == before;
    }
  }

  lemma TailFrom(masks: seq<Mask>, i: nat, chunk: seq<Token>, tail: seq<Token>)
    requires i < |masks| && chunk == EffectTokens(masks[i], i) && tail == EffectTail(masks, i + 1)
    ensures EffectTail(masks, i) == chunk + tail
  {
  }

  /** Second loop: draw the results over the frame. */
  method EmitOverlays(masks: seq<Mask>) returns (tokens: seq<Token>)
    ensures tokens == OverlayTail(masks, 0)
  {
    tokens := [];
    for i := 0 to |masks|
      invariant tokens + OverlayTail(masks, i) == OverlayTail(masks, 0)
    {
      var m := masks[i];
      ghost var before := tokens;
      tokens := tokens + [Pad(if m.kind == "blur" then Blur(i) else Pixelate(i))];
      tokens := tokens + [F(Overlay(m.x, m.y))];
      if i < |masks| - 1 {
        tokens := tokens + [Pad(Tmp(i)), Semi, Pad(Tmp(i))];
      }
      assert tokens == before + OverlayTokens(masks, i);
      Associative(before, OverlayTokens(masks, i), OverlayTail(masks, i + 1));
    }
  }

  /** Overlay i looks for a blur label exactly when mask i is a blur, and for a pixelate label
      otherwise, even if no chain defines it. */
  lemma {:induction false} OverlayLabels(masks: seq<Mask>, i: nat, k: nat)
    requires i <= |masks|
    ensures Pad(Blur(k)) in OverlayTail(masks, i) <==> i <= k < |masks| && masks[k].kind == "blur"
    ensures Pad(Pixelate(k)) in OverlayTail(masks, i) <==> i <= k < |masks| && masks[k].kind != "blur"
    decreases |masks| - i
  {
    if i < |masks| {
      OverlayLabels(masks, i + 1, k);
      var tokens := OverlayTokens(masks, i);
      assert Pad(Blur(k)) in tokens <==> k == i && masks[i].kind == "blur";
      assert Pad(Pixelate(k)) in tokens <==> k == i && masks[i].kind != "blur";
    }
  }

  lemma BlurTokens(m: Mask, i: nat)
    requires m.kind == "blur"
    ensures EffectTokens(m, i) == [Pad(Input), F(Crop(m.width, m.height, m.x, m.y)), Comma, F(BoxBlur(m.strength)),
                                   Pad(Blur(i)), Semi]
  {
    var fs := EffectFilters(m);
    assert fs[1..] == [fs[1]] && Commas(fs[1..]) == [F(fs[1])];
  }

  lemma PixelateTokens(m: Mask, i: nat)
    requires m.kind == "pixelate"
    ensures EffectTokens(m, i) == [Pad(Input), F(Crop(m.width, m.height, m.x, m.y)), Comma,
                                   F(ShrinkBy(if m.strength >= 1 then m.strength else 1)), Comma, F(ScaleTo(m.width, m.height)), Pad(Pixelate(i)), Semi]
  {
    var fs := EffectFilters(m);
    assert fs[1..] == [fs[1], fs[2]] && fs[1..][1..] == [fs[2]];
    assert Commas([fs[2]]) == [F(fs[2])] && Commas(fs[1..]) == [F(fs[1]), Comma, F(fs[2])];
  }

  // ----- reading a graph -----

  datatype Chain = Chain(inputs: seq<Label>, filters: seq<Filter>, outputs: seq<Label>)

  /** Cut at semicolons. */
  function Split(tokens: seq<Token>): (r: seq<seq<Token>>)
    ensures |r| >= 1
    decreases tokens
  {
    if tokens == [] then [[]]
    else
      var rest := Split(tokens[1..]);
      if tokens[0] == Semi then [[]] + rest else [[tokens[0]] + rest[0]] + rest[1..]
  }

  function LeadingPads(tokens: seq<Token>): (r: seq<Label>)
    ensures |r| <= |tokens|
  {
    if tokens != [] && tokens[0].Pad? then [tokens[0].pad] + LeadingPads(tokens[1..]) else []
  }

  /** Filters separated by commas, then output pads. */
  function ReadFilters(tokens: seq<Token>): Option<(seq<Filter>, seq<Label>)>
    decreases |tokens|
  {
    if tokens == [] || !tokens[0].F? then None
    else if |tokens| > 1 && tokens[1] == Comma then
      var rest := ReadFilters(tokens[2..]);
      if rest.None? then None else Some(([tokens[0].filter] + rest.value.0, rest.value.1))
    else
      var outputs := LeadingPads(tokens[1..]);
      if |outputs| == |tokens| - 1 then Some(([tokens[0].filter], outputs)) else None
  }

  function ReadChain(tokens: seq<Token>): Option<Chain> {
    var inputs := LeadingPads(tokens);
    var rest := ReadFilters(tokens[|inputs|..]);
    if rest.None? then None else Some(Chain(inputs, rest.value.0, rest.value.1))
  }

  // ----- what a graph computes -----

  datatype Image = Source | Filtered(filter: Filter, image: Image) | Overlaid(base: Image, top: Image, x: int, y: int)

  function ApplyAll(filters: seq<Filter>, image: Image): Option<Image> {
    if filters == [] then Some(image)
    else if filters[0].Overlay? then None
    else ApplyAll(filters[1..], Filtered(filters[0], image))
  }

  /** A chain of filters over one image, or one overlay of two. */
  function Apply(filters: seq<Filter>, images: seq<Image>): Option<Image> {
    if |images| == 1 then ApplyAll(filters, images[0])
    else if |images| == 2 && |filters| == 1 && filters[0].Overlay? then
      Some(Overlaid(images[0], images[1], filters[0].x, filters[0].y))
    else None
  }

  /** Labels that hold an image not yet used, and all labels ever defined. */
  datatype Env = Env(live: map<Label, Image>, defined: set<Label>)

  /** Taking a label uses it up; the input stream can be taken again and again. */
  function Take(env: Env, inputs: seq<Label>): Option<(seq<Image>, Env)>
    decreases inputs
  {
    if inputs == [] then Some(([], env))
    else if inputs[0] == Input then
      var rest := Take(env, inputs[1..]);
      if rest.None? then None else Some(([Source] + rest.value.0, rest.value.1))
    else if inputs[0] !in env.live then None
    else
      var rest := Take(env.(live := env.live - {inputs[0]}), inputs[1..]);
      if rest.None? then None else Some(([env.live[inputs[0]]] + rest.value.0, rest.value.1))
  }

  /** Run the chains in order.  A label is defined once, before its single use; the last chain
      has no output label and leaves no other image unused. */
  function Eval(chains: seq<seq<Token>>, env: Env): Option<Image>
    decreases chains
  {
    if chains == [] then None
    else
      var c := ReadChain(chains[0]);
      if c.None? then None
      else
        var taken := Take(env, c.value.inputs);
        if taken.None? then None
        else
          var image := Apply(c.value.filters, taken.value.0);
          if image.None? then None
          else if c.value.outputs == [] then
            if |chains| == 1 && taken.value.1.live == map[] then image else None
          else if |c.value.outputs| == 1 && c.value.outputs[0] != Input
                  && c.value.outputs[0] !in taken.value.1.defined then
            Eval(chains[1..], Env(taken.value.1.live[c.value.outputs[0] := image.value],
                                  taken.value.1.defined + {c.value.outputs[0]}))
          else None
  }

  function Interpret(tokens: seq<Token>): Option<Image> {
    Eval(Split(tokens), Env(map[], {}))
  }

  // ----- what the masks mean -----

  function FilterAll(filters: seq<Filter>, image: Image): Image {
    if filters == [] then image else FilterAll(filters[1..], Filtered(filters[0], image))
  }

  /** What a mask asks for: the crop of its rectangle from the original frame, box-blurred by
      its strength, or shrunk by it, never by less than 1, and blown up to its size again. */
  function Asked(m: Mask): Image {
    var crop := Filtered(Crop(m.width, m.height, m.x, m.y), Source);
    if m.kind == "blur" then Filtered(BoxBlur(m.strength), crop)
    else Filtered(ScaleTo(m.width, m.height), Filtered(ShrinkBy(if m.strength >= 1 then m.strength else 1), crop))
  }

  /** What is asked for, overlaid on an image at the masks' places, in list order from mask i on. */
  function Masked(masks: seq<Mask>, i: nat, image: Image): Image
    requires i <= |masks|
    decreases |masks| - i
  {
    if i == |masks| then image
    else Masked(masks, i + 1, Overlaid(image, Asked(masks[i]), masks[i].x, masks[i].y))
  }

  /** What the emitted filters make of the original frame. */
  function Effect(m: Mask): Image { FilterAll(EffectFilters(m), Source) }

  /** They make what is asked for. */
  lemma EffectMeaning(m: Mask)
    ensures Effect(m) == Asked(m)
  {
    var fs := EffectFilters(m);
    var crop := Filtered(fs[0], Source);
    assert Effect(m) == FilterAll(fs[1..], crop);
    if m.kind == "blur" {
      assert fs[1..] == [fs[1]] && [fs[1]][1..] == [];
      assert FilterAll([fs[1]], crop) == FilterAll([], Filtered(fs[1], crop));
    } else {
      assert fs[1..] == [fs[1], fs[2]] && [fs[1], fs[2]][1..] == [fs[2]] && [fs[2]][1..] == [];
      assert FilterAll([fs[1], fs[2]], crop) == FilterAll([fs[2]], Filtered(fs[1], crop));
      assert FilterAll([fs[2]], Filtered(fs[1], crop)) == FilterAll([], Filtered(fs[2], Filtered(fs[1], crop)));
    }
  }

  /** The effects overlaid on an image, in list order from mask i on. */
  function Drawn(masks: seq<Mask>, i: nat, image: Image): Image
    requires i <= |masks|
    decreases |masks| - i
  {
    if i == |masks| then image
    else Drawn(masks, i + 1, Overlaid(image, Effect(masks[i]), masks[i].x, masks[i].y))
  }

  lemma {:induction false} DrawnIsMasked(masks: seq<Mask>, i: nat, image: Image)
    requires i <= |masks|
    ensures Drawn(masks, i, image) == Masked(masks, i, image)
    decreases |masks| - i
  {
    if i < |masks| {
      EffectMeaning(masks[i]);
      DrawnIsMasked(masks, i + 1, Overlaid(image, Effect(masks[i]), masks[i].x, masks[i].y));
    }
  }

  // ----- reading back what was emitted -----

  lemma {:induction false} SplitAt(first: seq<Token>, rest: seq<Token>)
    requires Semi !in first
    ensures Split(first + [Semi] + rest) == [first] + Split(rest)
    decreases first
  {
    var all := first + [Semi] + rest;
    if first == [] {
      assert all[1..] == rest;
    } else {
      assert all[1..] == first[1..] + [Semi] + rest;
      SplitAt(first[1..], rest);
      assert [first[0]] + first[1..] == first;
    }
  }

  lemma {:induction false} SplitWhole(tokens: seq<Token>)
    requires Semi !in tokens
    ensures Split(tokens) == [tokens]
    decreases tokens
  {
    if tokens != [] {
      SplitWhole(tokens[1..]);
      assert [tokens[0]] + tokens[1..] == tokens;
    }
  }

  lemma {:induction false} ReadCommas(filters: seq<Filter>, outputs: seq<Label>, tail: seq<Token>)
    requires filters != [] && (tail == [] <==> outputs == []) && LeadingPads(tail) == outputs && |outputs| == |tail|
    ensures ReadFilters(Commas(filters) + tail) == Some((filters, outputs))
    ensures Semi !in Commas(filters)
    decreases filters
  {
    var all := Commas(filters) + tail;
    if |filters| == 1 {
      assert all[1..] == tail && [filters[0]] == filters;
      if tail != [] { assert all[1] == tail[0]; }
    } else {
      assert all[2..] == Commas(filters[1..]) + tail;
      ReadCommas(filters[1..], outputs, tail);
      assert [filters[0]] + filters[1..] == filters;
    }
  }

  lemma ReadEffectChain(m: Mask, i: nat)
    ensures ReadChain(EffectChain(m, i)) == Some(Chain([Input], EffectFilters(m), [LabelOf(m, i)]))
    ensures Semi !in EffectChain(m, i)
  {
    var tail := [Pad(LabelOf(m, i))];
    assert tail[1..] == [] && LeadingPads(tail) == [LabelOf(m, i)];
    ReadCommas(EffectFilters(m), [LabelOf(m, i)], tail);
    var body := Commas(EffectFilters(m)) + tail;
    assert EffectChain(m, i) == [Pad(Input)] + body && EffectChain(m, i)[1..] == body;
    assert body[0].F? && LeadingPads(body) == [];
    assert LeadingPads(EffectChain(m, i)) == [Input];
  }

  lemma ReadOverlayChain(prev: Label, top: Label, x: int, y: int, outputs: seq<Label>)
    requires |outputs| <= 1
    ensures var tokens := [Pad(prev), Pad(top), F(Overlay(x, y))] + if outputs == [] then [] else [Pad(outputs[0])];
            ReadChain(tokens) == Some(Chain([prev, top], [Overlay(x, y)], outputs)) && Semi !in tokens
  {
    var tail := if outputs == [] then [] else [Pad(outputs[0])];
    var body := [F(Overlay(x, y))] + tail;
    var tokens := [Pad(prev), Pad(top), F(Overlay(x, y))] + tail;
    assert LeadingPads(tail) == outputs by { if outputs != [] { assert tail[1..] == []; } }
    assert Commas([Overlay(x, y)]) == [F(Overlay(x, y))];
    ReadCommas([Overlay(x, y)], outputs, tail);
    assert body == Commas([Overlay(x, y)]) + tail;
    assert LeadingPads(body) == [];
    assert tokens[1..] == [Pad(top)] + body && tokens[1..][1..] == body && tokens[2..] == body;
    assert LeadingPads(tokens[1..]) == [top] && LeadingPads(tokens) == [prev] + [top];
    assert [prev] + [top] == [prev, top] && |LeadingPads(tokens)| == 2;
  }

  lemma {:induction false} ApplyFilters(filters: seq<Filter>, image: Image)
    requires forall i :: 0 <= i < |filters| ==> !filters[i].Overlay?
    ensures ApplyAll(filters, image) == Some(FilterAll(filters, image))
    decreases filters
  {
    if filters != [] {
      ApplyFilters(filters[1..], Filtered(filters[0], image));
    }
  }

  // ----- the environment while the graph runs -----

  predicate IsEffect(masks: seq<Mask>, lo: nat, hi: nat, label': Label) {
    (label'.Blur? || label'.Pixelate?) && lo <= label'.i < hi <= |masks|
    && Known(masks[label'.i]) && label' == LabelOf(masks[label'.i], label'.i)
  }

  /** Exactly the effects of the known masks from lo up to hi are waiting to be used. */
  ghost predicate Holds(live: map<Label, Image>, masks: seq<Mask>, lo: nat, hi: nat)
    requires hi <= |masks|
  {
    && (forall l :: l in live <==> IsEffect(masks, lo, hi, l))
    && (forall l :: l in live ==> live[l] == Effect(masks[l.i]))
  }

  ghost predicate OnlyEffects(defined: set<Label>, masks: seq<Mask>, hi: nat)
    requires hi <= |masks|
  {
    forall l :: l in defined ==> (l.Blur? || l.Pixelate?) && l.i < hi
  }

  /** The crop chains define their labels, one by one. */
  lemma {:induction false} RunEffects(masks: seq<Mask>, i: nat, env: Env, rest: seq<Token>) returns (out: Env)
    requires i <= |masks| && Holds(env.live, masks, 0, i) && OnlyEffects(env.defined, masks, i)
    ensures Holds(out.live, masks, 0, |masks|) && OnlyEffects(out.defined, masks, |masks|)
    ensures Eval(Split(EffectTail(masks, i) + rest), env) == Eval(Split(rest), out)
    decreases |masks| - i
  {
    if i == |masks| {
      assert EffectTail(masks, i) + rest == rest;
      out := env;
    } else if Known(masks[i]) {
      var m := masks[i];
      var more := EffectTail(masks, i + 1) + rest;
      SplitEffect(masks, i, rest);
      var next := Env(env.live[LabelOf(m, i) := Effect(m)], env.defined + {LabelOf(m, i)});
      RunEffectChain(m, i, env, Split(more));
      OneMoreEffect(masks, i, env);
      out := RunEffects(masks, i + 1, next, rest);
    } else {
      assert EffectTail(masks, i) == EffectTail(masks, i + 1);
      NoMoreEffect(masks, i, env);
      out := RunEffects(masks, i + 1, env, rest);
    }
  }

  lemma SplitEffect(masks: seq<Mask>, i: nat, rest: seq<Token>)
    requires i < |masks| && Known(masks[i])
    ensures Split(EffectTail(masks, i) + rest) == [EffectChain(masks[i], i)] + Split(EffectTail(masks, i + 1) + rest)
  {
    var chain, more := EffectChain(masks[i], i), EffectTail(masks, i + 1) + rest;
    Associative(chain + [Semi], EffectTail(masks, i + 1), rest);
    ReadEffectChain(masks[i], i);
    SplitAt(chain, more);
  }

  lemma OneMoreEffect(masks: seq<Mask>, i: nat, env: Env)
    requires i < |masks| && Known(masks[i]) && Holds(env.live, masks, 0, i) && OnlyEffects(env.defined, masks, i)
    ensures Holds(env.live[LabelOf(masks[i], i) := Effect(masks[i])], masks, 0, i + 1)
    ensures OnlyEffects(env.defined + {LabelOf(masks[i], i)}, masks, i + 1) && LabelOf(masks[i], i) !in env.defined
  {
  }

  lemma NoMoreEffect(masks: seq<Mask>, i: nat, env: Env)
    requires i < |masks| && !Known(masks[i]) && Holds(env.live, masks, 0, i) && OnlyEffects(env.defined, masks, i)
    ensures Holds(env.live, masks, 0, i + 1) && OnlyEffects(env.defined, masks, i + 1)
  {
  }

  lemma RunEffectChain(m: Mask, i: nat, env: Env, more: seq<seq<Token>>)
    requires LabelOf(m, i) !in env.defined
    ensures Eval([EffectChain(m, i)] + more, env)
            == Eval(more, Env(env.live[LabelOf(m, i) := Effect(m)], env.defined + {LabelOf(m, i)}))
  {
    ReadEffectChain(m, i);
    assert ([EffectChain(m, i)] + more)[1..] == more;
    assert [Input][1..] == [] && Take(env, [Input]) == Some(([Source] + [], env)) && [Source] + [] == [Source];
    ApplyFilters(EffectFilters(m), Source);
  }

  /** Before overlay i: the effects from i on are waiting, and the image to draw on, which is
      the input stream itself for the first one. */
  ghost predicate Ready(env: Env, masks: seq<Mask>, i: nat, prev: Label, image: Image)
    requires i <= |masks|
  {
    && prev == (if i == 0 then Input else Tmp(i - 1)) && (i == 0 ==> image == Source)
    && (forall l :: l in env.live <==> IsEffect(masks, i, |masks|, l) || (i > 0 && l == prev))
    && (forall l :: l in env.live ==> env.live[l] == if l == prev then image else Effect(masks[l.i]))
    && (forall l :: l in env.defined ==> l.Blur? || l.Pixelate? || (l.Tmp? && l.i < i))
  }

  /** What one overlay takes: the image so far and effect i, if there is one. */
  lemma TakeTwo(env: Env, masks: seq<Mask>, i: nat, prev: Label, image: Image) returns (after: Env)
    requires i < |masks| && Ready(env, masks, i, prev, image)
    ensures Take(env, [prev, LabelOf(masks[i], i)])
            == if Known(masks[i]) then Some(([image, Effect(masks[i])], after)) else None
    ensures after.defined == env.defined
    ensures Known(masks[i]) ==> Holds(after.live, masks, i + 1, |masks|)
  {
    var top := LabelOf(masks[i], i);
    var mid := if i == 0 then env else env.(live := env.live - {prev});
    after := mid.(live := mid.live - {top});
    NextWaiting(env, masks, i, prev, image, mid, after);
    TakePair(env, prev, top);
  }

  lemma NextWaiting(env: Env, masks: seq<Mask>, i: nat, prev: Label, image: Image, mid: Env, after: Env)
    requires i < |masks| && Ready(env, masks, i, prev, image)
    requires mid == if i == 0 then env else env.(live := env.live - {prev})
    requires after == mid.(live := mid.live - {LabelOf(masks[i], i)})
    ensures LabelOf(masks[i], i) in mid.live <==> Known(masks[i])
    ensures Known(masks[i]) ==> mid.live[LabelOf(masks[i], i)] == Effect(masks[i])
    ensures Known(masks[i]) ==> Holds(after.live, masks, i + 1, |masks|)
  {
    var top := LabelOf(masks[i], i);
    assert IsEffect(masks, i, |masks|, top) <==> Known(masks[i]);
    assert top in mid.live <==> top in env.live;
    if Known(masks[i]) {
      StillWaiting(env, masks, i, prev, image, after);
    }
  }

  lemma StillWaiting(env: Env, masks: seq<Mask>, i: nat, prev: Label, image: Image, after: Env)
    requires i < |masks| && Ready(env, masks, i, prev, image)
    requires after.live == (if i == 0 then env.live else env.live - {prev}) - {LabelOf(masks[i], i)}
    ensures Holds(after.live, masks, i + 1, |masks|)
  {
    forall l ensures l in after.live <==> IsEffect(masks, i + 1, |masks|, l) {
      LaterEffect(masks, i, l);
      assert l in after.live <==> l in env.live && l != LabelOf(masks[i], i) && (i == 0 || l != prev);
    }
  }

  lemma LaterEffect(masks: seq<Mask>, i: nat, l: Label)
    requires i < |masks|
    ensures IsEffect(masks, i + 1, |masks|, l) <==> IsEffect(masks, i, |masks|, l) && l != LabelOf(masks[i], i)
  {
  }

  lemma TakePair(env: Env, prev: Label, top: Label)
    requires (prev == Input || prev in env.live) && top != Input
    ensures var mid := if prev == Input then env else env.(live := env.live - {prev});
            Take(env, [prev, top]) ==
              if top in mid.live
              then Some(([if prev == Input then Source else env.live[prev], mid.live[top]], mid.(live := mid.live - {top})))
              else None
  {
    var mid := if prev == Input then env else env.(live := env.live - {prev});
    assert [prev, top][1..] == [top] && [top][1..] == [];
    if top in mid.live {
      assert [mid.live[top]] + [] == [mid.live[top]];
      assert Take(mid, [top]) == Some(([mid.live[top]], mid.(live := mid.live - {top})));
      assert [if prev == Input then Source else env.live[prev]] + [mid.live[top]]
          == [if prev == Input then Source else env.live[prev], mid.live[top]];
    }
  }

  predicate AllKnown(masks: seq<Mask>, i: nat) {
    forall j :: i <= j < |masks| ==> Known(masks[j])
  }

  /** One overlay chain: without its effect the whole graph fails. */
  lemma RunOverlay(masks: seq<Mask>, i: nat, prev: Label, image: Image, env: Env, outputs: seq<Label>,
                   first: seq<Token>, more: seq<seq<Token>>) returns (after: Env)
    requires i < |masks| && Ready(env, masks, i, prev, image)
    requires outputs == [] || outputs == [Tmp(i)]
    requires first == [Pad(prev), Pad(LabelOf(masks[i], i)), F(Overlay(masks[i].x, masks[i].y))]
                      + if outputs == [] then [] else [Pad(outputs[0])]
    ensures Semi !in first && after.defined == env.defined
    ensures !Known(masks[i]) ==> Eval([first] + more, env) == None
    ensures Known(masks[i]) ==>
        var drawn := Overlaid(image, Effect(masks[i]), masks[i].x, masks[i].y);
        && Holds(after.live, masks, i + 1, |masks|)
        && Eval([first] + more, env) ==
             if outputs != [] then Eval(more, Env(after.live[Tmp(i) := drawn], after.defined + {Tmp(i)}))
             else if more == [] && after.live == map[] then Some(drawn) else None
  {
    var m := masks[i];
    after := TakeTwo(env, masks, i, prev, image);
    ReadOverlayChain(prev, LabelOf(m, i), m.x, m.y, outputs);
    assert ([first] + more)[1..] == more && ([first] + more)[0] == first;
    if outputs != [] {
      assert Tmp(i) !in env.defined;
    }
  }

  lemma {:induction false} RunOverlays(masks: seq<Mask>, i: nat, prev: Label, image: Image, env: Env)
    requires i < |masks| && Ready(env, masks, i, prev, image)
    ensures Outcome(masks, i, prev, env)
            == if AllKnown(masks, i) then Some(Drawn(masks, i, image)) else None
    decreases |masks| - i
  {
    if i == |masks| - 1 {
      LastOverlay(masks, i, prev, image, env);
      DrawOne(masks, i, image);
    } else {
      var next := OneOverlay(masks, i, prev, image, env);
      if Known(masks[i]) {
        RunOverlays(masks, i + 1, Tmp(i), Overlaid(image, Effect(masks[i]), masks[i].x, masks[i].y), next);
      }
      ThenRest(masks, i, image, Outcome(masks, i, prev, env), Outcome(masks, i + 1, Tmp(i), next));
    }
  }

  /** What the chains from overlay i on compute. */
  function Outcome(masks: seq<Mask>, i: nat, prev: Label, env: Env): Option<Image>
    requires i < |masks|
  {
    Eval(Split([Pad(prev)] + OverlayTail(masks, i)), env)
  }

  lemma ThenRest(masks: seq<Mask>, i: nat, image: Image, here: Option<Image>, rest: Option<Image>)
    requires i < |masks| - 1 && here == if Known(masks[i]) then rest else None
    requires Known(masks[i]) ==>
        rest == if AllKnown(masks, i + 1)
                then Some(Drawn(masks, i + 1, Overlaid(image, Effect(masks[i]), masks[i].x, masks[i].y))) else None
    ensures here == if AllKnown(masks, i) then Some(Drawn(masks, i, image)) else None
  {
    DrawOne(masks, i, image);
  }

  lemma DrawOne(masks: seq<Mask>, i: nat, image: Image)
    requires i < |masks|
    ensures AllKnown(masks, i) <==> Known(masks[i]) && AllKnown(masks, i + 1)
    ensures var drawn := Overlaid(image, Effect(masks[i]), masks[i].x, masks[i].y);
            Drawn(masks, i, image) == if i + 1 == |masks| then drawn else Drawn(masks, i + 1, drawn)
  {
  }

  lemma LastOverlay(masks: seq<Mask>, i: nat, prev: Label, image: Image, env: Env)
    requires |masks| == i + 1 && Ready(env, masks, i, prev, image)
    ensures Outcome(masks, i, prev, env)
            == if Known(masks[i]) then Some(Overlaid(image, Effect(masks[i]), masks[i].x, masks[i].y)) else None
  {
    var m := masks[i];
    var first := [Pad(prev), Pad(LabelOf(m, i)), F(Overlay(m.x, m.y))];
    var after := RunOverlay(masks, i, prev, image, env, [], first, []);
    SplitLast(masks, i, prev);
    assert [first] + [] == [first];
    if Known(m) { assert after.live == map[]; }
  }

  lemma OneOverlay(masks: seq<Mask>, i: nat, prev: Label, image: Image, env: Env) returns (next: Env)
    requires i < |masks| - 1 && Ready(env, masks, i, prev, image)
    ensures var drawn := Overlaid(image, Effect(masks[i]), masks[i].x, masks[i].y);
            && (Known(masks[i]) ==> Ready(next, masks, i + 1, Tmp(i), drawn))
            && Outcome(masks, i, prev, env) == if Known(masks[i]) then Outcome(masks, i + 1, Tmp(i), next) else None
  {
    var m := masks[i];
    var drawn := Overlaid(image, Effect(m), m.x, m.y);
    var whole := [Pad(prev), Pad(LabelOf(m, i)), F(Overlay(m.x, m.y))] + [Pad(Tmp(i))];
    var after := RunOverlay(masks, i, prev, image, env, [Tmp(i)], whole, Split([Pad(Tmp(i))] + OverlayTail(masks, i + 1)));
    SplitOverlay(masks, i, prev, whole);
    next := Env(after.live[Tmp(i) := drawn], after.defined + {Tmp(i)});
    if Known(m) { NextReady(env, masks, i, prev, image, after, drawn); }
  }

  lemma SplitLast(masks: seq<Mask>, i: nat, prev: Label)
    requires |masks| == i + 1
    ensures Split([Pad(prev)] + OverlayTail(masks, i))
            == [[Pad(prev), Pad(LabelOf(masks[i], i)), F(Overlay(masks[i].x, masks[i].y))]]
  {
    var first := [Pad(prev), Pad(LabelOf(masks[i], i)), F(Overlay(masks[i].x, masks[i].y))];
    assert OverlayTail(masks, i + 1) == [];
    assert [Pad(prev)] + OverlayTail(masks, i) == first;
    SplitWhole(first);
  }

  lemma SplitOverlay(masks: seq<Mask>, i: nat, prev: Label, whole: seq<Token>)
    requires i < |masks| - 1 && Semi !in whole
    requires whole == [Pad(prev), Pad(LabelOf(masks[i], i)), F(Overlay(masks[i].x, masks[i].y))] + [Pad(Tmp(i))]
    ensures Split([Pad(prev)] + OverlayTail(masks, i)) == [whole] + Split([Pad(Tmp(i))] + OverlayTail(masks, i + 1))
  {
    var tail := OverlayTail(masks, i + 1);
    assert [Pad(prev)] + OverlayTokens(masks, i) == whole + [Semi] + [Pad(Tmp(i))];
    Associative([Pad(prev)], OverlayTokens(masks, i), tail);
    Associative(whole + [Semi], [Pad(Tmp(i))], tail);
    SplitAt(whole, [Pad(Tmp(i))] + tail);
  }

  lemma NextReady(env: Env, masks: seq<Mask>, i: nat, prev: Label, image: Image, after: Env, drawn: Image)
    requires i < |masks| && Ready(env, masks, i, prev, image)
    requires after.defined == env.defined && Holds(after.live, masks, i + 1, |masks|)
    ensures Ready(Env(after.live[Tmp(i) := drawn], after.defined + {Tmp(i)}), masks, i + 1, Tmp(i), drawn)
  {
  }

  /** Main result: the emitted graph is well formed, with every label defined once before its
      single use, exactly when every mask is a blur or a pixelate; and then it computes the
      filtered crops of the original frame, overlaid from left to right in list order. */
  lemma GraphMeansMasks(masks: seq<Mask>)
    requires masks != []
    ensures Interpret(Graph(masks)) == if AllKnown(masks, 0) then Some(Masked(masks, 0, Source)) else None
  {
    var rest := [Pad(Input)] + OverlayTail(masks, 0);
    assert Graph(masks) == EffectTail(masks, 0) + rest;
    var start := Env(map[], {});
    assert Holds(start.live, masks, 0, 0);
    var env := RunEffects(masks, 0, start, rest);
    AllReady(masks, env);
    RunOverlays(masks, 0, Input, Source, env);
    DrawnIsMasked(masks, 0, Source);
  }

  lemma AllReady(masks: seq<Mask>, env: Env)
    requires Holds(env.live, masks, 0, |masks|) && OnlyEffects(env.defined, masks, |masks|)
    ensures Ready(env, masks, 0, Input, Source)
  {
  }
}
