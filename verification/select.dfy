/** The `select` prompt: parsing `#[select(prompt = …, default = …,
    options = […])]` into a spec, and synthesising the setter method that
    asks the operator to pick one of the options. */
module SelectPrompt {
  import opened Syntax
  import opened Codegen

  /** `select::Select`: what the attribute fixed at compile time. */
  datatype SelectSpec = SelectSpec(prompt: Option<string>, default: Option<nat>, options: Option<seq<string>>)

  /** The spec before any option is read. */
  const EMPTY: SelectSpec := SelectSpec(None, None, None)

  /** The diagnostic for an unknown option key, spacing included. */
  const KEY_ERROR := "expected `prompt` , `default` or  `options`"

  /** The dialoguer builder the emitted method drives. */
  const BUILDER := "Select"

  /** The only keys a `select` attribute accepts. */
  predicate IsKey(k: string) {
    k == "prompt" || k == "default" || k == "options"
  }

  /** The literal each key requires. */
  function RequiredLit(k: string): LitKind
    requires IsKey(k)
  {
    if k == "prompt" then StrLit else if k == "default" then IntLit else ArrayLit
  }

  predicate HasKind(l: Lit, kind: LitKind) {
    match kind
    case StrLit => l.Str?
    case IntLit => l.Int?
    case ArrayLit => l.Array?
  }

  /** The option grammar: a known key, `=`, a literal of that key's kind,
      and for `default` a value that fits in `usize`. */
  predicate ValidOption(m: Meta) {
    && IsKey(m.key)
    && m.value.Some?
    && HasKind(m.value.value, RequiredLit(m.key))
    && (m.value.value.Int? ==> m.value.value.n <= USIZE_MAX)
  }

  /** The callback given to `parse_nested_meta`: reads one option into the
      spec built so far. A valid option overwrites exactly the field its key
      names; an invalid one is reported with the diagnostic for its defect. */
  function ApplyOption(acc: SelectSpec, m: Meta): (r: Result<SelectSpec>)
    ensures r.Ok? <==> ValidOption(m)
    ensures r.Ok? && m.key == "prompt" ==> r.value == acc.(prompt := Some(m.value.value.s))
    ensures r.Ok? && m.key == "default" ==> r.value == acc.(default := Some(m.value.value.n))
    ensures r.Ok? && m.key == "options" ==> r.value == acc.(options := Some(m.value.value.elems))
    ensures !IsKey(m.key) ==> r == Err(AtMeta(m.key, KEY_ERROR))
    ensures IsKey(m.key) && m.value.None? ==> r == Err(ExpectedEquals(m.key))
    ensures IsKey(m.key) && m.value.Some? && !HasKind(m.value.value, RequiredLit(m.key)) ==>
              r == Err(ExpectedLiteral(m.key, RequiredLit(m.key)))
  {
    if m.key == "prompt" then
      match m.value
      case None => Err(ExpectedEquals(m.key))
      case Some(Str(s)) => Ok(acc.(prompt := Some(s)))
      case Some(_) => Err(ExpectedLiteral(m.key, StrLit))
    else if m.key == "default" then
      match m.value
      case None => Err(ExpectedEquals(m.key))
      case Some(Int(n)) => if n <= USIZE_MAX then Ok(acc.(default := Some(n))) else Err(OutOfRange(m.key, n))
      case Some(_) => Err(ExpectedLiteral(m.key, IntLit))
    else if m.key == "options" then
      match m.value
      case None => Err(ExpectedEquals(m.key))
      case Some(Array(xs)) => Ok(acc.(options := Some(xs)))
      case Some(_) => Err(ExpectedLiteral(m.key, ArrayLit))
    else
      Err(AtMeta(m.key, KEY_ERROR))
  }

  /** `Select::parse_field_attr`: start from the empty spec and read the
      options in order. */
  function ParseFieldAttr(a: Attr): (r: Result<SelectSpec>)
    ensures a.args == List([]) ==> r == Ok(EMPTY)
    ensures !a.args.List? ==> r.Err?
  {
    ParseNestedMeta(a, EMPTY, ApplyOption)
  }

  // ----- Reference semantics of the option list -----

  /** The last option in `ms` written with key `k`, if any. */
  function LastWith(ms: seq<Meta>, k: string): (r: Option<Meta>)
    ensures r.Some? ==> r.value in ms && r.value.key == k
    ensures r.None? ==> forall i | 0 <= i < |ms| :: ms[i].key != k
    decreases |ms|
  {
    if |ms| == 0 then None
    else
      match LastWith(ms[1..], k)
      case Some(m) => Some(m)
      case None => if ms[0].key == k then Some(ms[0]) else None
  }

  /** The value of the last `prompt` option, or `fallback` when there is none. */
  function LastPrompt(ms: seq<Meta>, fallback: Option<string>): Option<string> {
    match LastWith(ms, "prompt")
    case Some(Meta(_, Some(Str(s)))) => Some(s)
    case _ => fallback
  }

  /** The value of the last `default` option, or `fallback` when there is none. */
  function LastDefault(ms: seq<Meta>, fallback: Option<nat>): Option<nat> {
    match LastWith(ms, "default")
    case Some(Meta(_, Some(Int(n)))) => Some(n)
    case _ => fallback
  }

  /** The value of the last `options` option, or `fallback` when there is none. */
  function LastOptions(ms: seq<Meta>, fallback: Option<seq<string>>): Option<seq<string>> {
    match LastWith(ms, "options")
    case Some(Meta(_, Some(Array(xs)))) => Some(xs)
    case _ => fallback
  }

  /** `base` with every field overridden by the last option that sets it. */
  function Overlay(base: SelectSpec, ms: seq<Meta>): SelectSpec {
    SelectSpec(LastPrompt(ms, base.prompt), LastDefault(ms, base.default), LastOptions(ms, base.options))
  }

  predicate AllValid(ms: seq<Meta>) {
    forall i | 0 <= i < |ms| :: ValidOption(ms[i])
  }

  /** `i` is the position of the first option that breaks the grammar. */
  predicate FirstInvalid(ms: seq<Meta>, i: int) {
    0 <= i < |ms| && !ValidOption(ms[i]) && forall j | 0 <= j < i :: ValidOption(ms[j])
  }

  /** A list is valid iff its head and its tail are. */
  lemma AllValidCons(ms: seq<Meta>)
    requires |ms| > 0
    ensures AllValid(ms) <==> ValidOption(ms[0]) && AllValid(ms[1..])
  {
    if ValidOption(ms[0]) && AllValid(ms[1..]) {
      forall i | 0 <= i < |ms| ensures ValidOption(ms[i]) {
        if i > 0 { assert ms[i] == ms[1..][i - 1]; }
      }
    }
  }

  /** Reading an option list succeeds exactly when every option is valid,
      and then yields the start spec overlaid with the last value of each
      key; otherwise it fails with the error of the first invalid option. */
  lemma {:induction false} FoldOptions(ms: seq<Meta>, acc: SelectSpec)
    ensures FoldMetas(ms, acc, ApplyOption).Ok? <==> AllValid(ms)
    ensures AllValid(ms) ==> FoldMetas(ms, acc, ApplyOption) == Ok(Overlay(acc, ms))
    ensures !AllValid(ms) ==>
              exists i :: FirstInvalid(ms, i) && FoldMetas(ms, acc, ApplyOption) == ApplyOption(acc, ms[i]).PropagateFailure()
  {
    if AllValid(ms) {
      FoldValid(ms, acc);
    } else {
      FoldInvalid(ms, acc);
    }
  }

  /** A valid list reads to the overlay of its options. */
  lemma {:induction false} FoldValid(ms: seq<Meta>, acc: SelectSpec)
    requires AllValid(ms)
    ensures FoldMetas(ms, acc, ApplyOption) == Ok(Overlay(acc, ms))
    decreases |ms|
  {
    if |ms| > 0 {
      AllValidCons(ms);
      var next := ApplyOption(acc, ms[0]).value;
      FoldValid(ms[1..], next);
      OverlayCons(acc, ms[0], ms[1..]);
      assert [ms[0]] + ms[1..] == ms;
    }
  }

  /** An invalid list fails with the error of its first invalid option. */
  lemma {:induction false} FoldInvalid(ms: seq<Meta>, acc: SelectSpec)
    requires !AllValid(ms)
    ensures exists i :: FirstInvalid(ms, i) && FoldMetas(ms, acc, ApplyOption) == ApplyOption(acc, ms[i]).PropagateFailure()
    decreases |ms|
  {
    AllValidCons(ms);
    if !ValidOption(ms[0]) {
      assert FirstInvalid(ms, 0);
    } else {
      var rest := ms[1..];
      var next := ApplyOption(acc, ms[0]).value;
      FoldInvalid(rest, next);
      var i :| FirstInvalid(rest, i) && FoldMetas(rest, next, ApplyOption) == ApplyOption(next, rest[i]).PropagateFailure();
      assert FirstInvalid(ms, i + 1) by {
        forall j | 0 <= j < i + 1 ensures ValidOption(ms[j]) {
          if j > 0 { assert ms[j] == rest[j - 1]; }
        }
      }
      ErrorIgnoresSpec(next, acc, rest[i]);
    }
  }

  /** Reading one valid option and then the rest is overlaying all of them. */
  lemma OverlayCons(acc: SelectSpec, m: Meta, rest: seq<Meta>)
    requires ValidOption(m) && AllValid(rest)
    ensures Overlay(ApplyOption(acc, m).value, rest) == Overlay(acc, [m] + rest)
  {
    var next := ApplyOption(acc, m).value;
    LastWithCons(m, rest, "prompt");
    LastWithCons(m, rest, "default");
    LastWithCons(m, rest, "options");
    LastWithValid(rest, "prompt");
    LastWithValid(rest, "default");
    LastWithValid(rest, "options");
    if m.key == "prompt" {
      assert next == acc.(prompt := Some(m.value.value.s));
    } else if m.key == "default" {
      assert next == acc.(default := Some(m.value.value.n));
    } else {
      assert next == acc.(options := Some(m.value.value.elems));
    }
  }

  /** The last option with key `k` in `[m] + rest`: `rest`'s if it has one, else `m` if it has key `k`. */
  lemma LastWithCons(m: Meta, rest: seq<Meta>, k: string)
    ensures LastWith([m] + rest, k) == if LastWith(rest, k).Some? then LastWith(rest, k) else if m.key == k then Some(m) else None
  {
    assert ([m] + rest)[1..] == rest;
  }

  lemma LastWithValid(ms: seq<Meta>, k: string)
    requires AllValid(ms)
    ensures LastWith(ms, k).Some? ==> ValidOption(LastWith(ms, k).value)
  {
    if LastWith(ms, k).Some? {
      var i :| 0 <= i < |ms| && ms[i] == LastWith(ms, k).value;
    }
  }

  /** An invalid option's diagnostic does not depend on the options read before it. */
  lemma ErrorIgnoresSpec(a: SelectSpec, b: SelectSpec, m: Meta)
    requires !ValidOption(m)
    ensures ApplyOption(a, m) == ApplyOption(b, m)
  {
  }

  /** `parse_field_attr` on a parenthesised list: succeeds iff every option
      is valid, and then each field holds the last value written for its key
      (an absent key leaves the field `None`). */
  lemma ParseFieldAttrSemantics(tag: string, ms: seq<Meta>)
    ensures ParseFieldAttr(Attr(tag, List(ms))).Ok? <==> AllValid(ms)
    ensures AllValid(ms) ==> ParseFieldAttr(Attr(tag, List(ms))) == Ok(Overlay(EMPTY, ms))
  {
    FoldOptions(ms, EMPTY);
  }

  /** The error `parse_field_attr` reports is the one the first invalid
      option reports on its own: neither the valid options before it nor
      anything after it changes the diagnostic. */
  lemma FirstInvalidOptionReported(tag: string, ms: seq<Meta>, i: int)
    requires FirstInvalid(ms, i)
    ensures ParseFieldAttr(Attr(tag, List(ms))) == ParseFieldAttr(Attr(tag, List([ms[i]])))
  {
    FoldOptions(ms, EMPTY);
    var k :| FirstInvalid(ms, k) && FoldMetas(ms, EMPTY, ApplyOption) == ApplyOption(EMPTY, ms[k]).PropagateFailure();
    FirstInvalidUnique(ms, i, k);
  }

  lemma FirstInvalidUnique(ms: seq<Meta>, i: int, k: int)
    requires FirstInvalid(ms, i) && FirstInvalid(ms, k)
    ensures i == k
  {
  }

  /** A key repeated later in the list overwrites the earlier value. */
  lemma {:induction false} LaterOptionWins(tag: string, ms: seq<Meta>, m: Meta)
    requires AllValid(ms) && ValidOption(m)
    ensures ParseFieldAttr(Attr(tag, List(ms + [m]))).Ok?
    ensures m.key == "prompt" ==> ParseFieldAttr(Attr(tag, List(ms + [m]))).value.prompt == Some(m.value.value.s)
    ensures m.key == "default" ==> ParseFieldAttr(Attr(tag, List(ms + [m]))).value.default == Some(m.value.value.n)
    ensures m.key == "options" ==> ParseFieldAttr(Attr(tag, List(ms + [m]))).value.options == Some(m.value.value.elems)
  {
    assert AllValid(ms + [m]) by {
      forall i | 0 <= i < |ms + [m]| ensures ValidOption((ms + [m])[i]) {
        if i < |ms| { assert (ms + [m])[i] == ms[i]; }
      }
    }
    ParseFieldAttrSemantics(tag, ms + [m]);
    LastWithAppend(ms, m);
  }

  lemma {:induction false} LastWithAppend(ms: seq<Meta>, m: Meta)
    ensures LastWith(ms + [m], m.key) == Some(m)
    decreases |ms|
  {
    if |ms| == 0 {
      assert ms + [m] == [m];
    } else {
      assert (ms + [m])[1..] == ms[1..] + [m];
      LastWithAppend(ms[1..], m);
    }
  }

  // ----- Inverse of parsing -----

  /** The option list that writes each present field of `s` once. */
  function Unparse(s: SelectSpec): seq<Meta> {
    (match s.prompt case Some(p) => [Meta("prompt", Some(Str(p)))] case None => [])
    + (match s.default case Some(n) => [Meta("default", Some(Int(n)))] case None => [])
    + (match s.options case Some(xs) => [Meta("options", Some(Array(xs)))] case None => [])
  }

  /** Every spec whose default fits in `usize` is what `parse_field_attr`
      reads back from its own option list. */
  lemma ParseUnparse(tag: string, s: SelectSpec)
    requires s.default.Some? ==> s.default.value <= USIZE_MAX
    ensures ParseFieldAttr(Attr(tag, List(Unparse(s)))) == Ok(s)
  {
    var ms := Unparse(s);
    UnparseValid(s);
    ParseFieldAttrSemantics(tag, ms);
    LastWithUnparse(s);
    var o := Overlay(EMPTY, ms);
    assert o.prompt == s.prompt;
    assert o.default == s.default;
    assert o.options == s.options;
  }

  lemma UnparseValid(s: SelectSpec)
    requires s.default.Some? ==> s.default.value <= USIZE_MAX
    ensures AllValid(Unparse(s))
  {
    var ms := Unparse(s);
    forall i | 0 <= i < |ms| ensures ValidOption(ms[i]) {
      assert ms[i].key == "prompt" || ms[i].key == "default" || ms[i].key == "options";
    }
  }

  lemma LastWithUnparse(s: SelectSpec)
    ensures LastWith(Unparse(s), "prompt") == (match s.prompt case Some(p) => Some(Meta("prompt", Some(Str(p)))) case None => None)
    ensures LastWith(Unparse(s), "default") == (match s.default case Some(n) => Some(Meta("default", Some(Int(n)))) case None => None)
    ensures LastWith(Unparse(s), "options") == (match s.options case Some(xs) => Some(Meta("options", Some(Array(xs)))) case None => None)
  {
    var p := match s.prompt case Some(p) => [Meta("prompt", Some(Str(p)))] case None => [];
    var d := match s.default case Some(n) => [Meta("default", Some(Int(n)))] case None => [];
    var o := match s.options case Some(xs) => [Meta("options", Some(Array(xs)))] case None => [];
    assert Unparse(s) == (p + d) + o;
    LastWithConcat(p + d, o, "prompt");
    LastWithConcat(p + d, o, "default");
    LastWithConcat(p + d, o, "options");
    LastWithConcat(p, d, "prompt");
    LastWithConcat(p, d, "default");
    LastWithConcat(p, d, "options");
  }

  /** The last option with a key in `a + b` is `b`'s, when `b` has one. */
  lemma {:induction false} LastWithConcat(a: seq<Meta>, b: seq<Meta>, k: string)
    ensures LastWith(a + b, k) == if LastWith(b, k).Some? then LastWith(b, k) else LastWith(a, k)
    decreases |a|
  {
    if |a| == 0 {
      assert a + b == b;
    } else {
      assert (a + b)[1..] == a[1..] + b;
      LastWithConcat(a[1..], b, k);
    }
  }

  // ----- Method synthesis -----

  /** The runtime parameters of the emitted method: one for each of the
      prompt and the options the attribute left unset, prompt first. */
  function SynthParams(s: SelectSpec, innerTy: Option<Ty>): (ps: seq<Param>)
    ensures "prompt" in ParamNames(ps) <==> s.prompt.None?
    ensures "options" in ParamNames(ps) <==> s.options.None?
    ensures |ps| == (if s.prompt.None? then 1 else 0) + (if s.options.None? then 1 else 0)
    ensures s.prompt.None? ==> ps[0] == Param("prompt", StrRef)
    ensures s.options.None? ==> ps[|ps| - 1] == Param("options", SliceRef(innerTy))
    ensures forall i, j | 0 <= i < j < |ps| :: ps[i].name != ps[j].name
  {
    var ps := (if s.prompt.Some? then [] else [Param("prompt", StrRef)])
      + (if s.options.Some? then [] else [Param("options", SliceRef(innerTy))]);
    assert ParamNames(ps) == seq(|ps|, i requires 0 <= i < |ps| => ps[i].name);
    ps
  }

  /** The chain sets a default index. */
  predicate HasDefaultStep(steps: seq<Step>) {
    exists i | 0 <= i < |steps| :: steps[i].DefaultIndex?
  }

  /** The builder chain of the emitted method: the constructor the theme
      selects, the prompt (literal or the `prompt` parameter), a default
      index only when the attribute gave one, the items from `options`, and
      the blocking `interact`. */
  function SynthChain(s: SelectSpec, theme: ThemeCode): (steps: seq<Step>)
    ensures ChainOrdered(steps)
    ensures steps[0] == (if theme == 0 then New else WithTheme(GetTheme(theme).value))
    ensures steps[1] == WithPrompt(if s.prompt.Some? then PromptLit(s.prompt.value) else PromptVar("prompt"))
    ensures forall i | 0 <= i < |steps| && steps[i].WithPrompt? :: i == 1
    ensures s.default.Some? <==> |steps| == 5
    ensures HasDefaultStep(steps) <==> s.default.Some?
    ensures s.default.Some? ==> steps[2] == DefaultIndex(s.default.value)
    ensures forall i | 0 <= i < |steps| && steps[i].DefaultIndex? :: i == 2 && s.default.Some?
    ensures steps[|steps| - 2] == Items("options")
    ensures forall i | 0 <= i < |steps| && steps[i].Items? :: i == |steps| - 2
  {
    var ctor := match GetTheme(theme) case Some(t) => WithTheme(t) case None => New;
    var prompt := WithPrompt(if s.prompt.Some? then PromptLit(s.prompt.value) else PromptVar("prompt"));
    match s.default
    case Some(n) =>
      var steps := [ctor, prompt, DefaultIndex(n), Items("options"), Interact];
      assert steps[2].DefaultIndex?;
      steps
    case None => [ctor, prompt, Items("options"), Interact]
  }

  /** `Select::generate_method`: a setter named after the field that takes
      what the attribute left unset as parameters, runs the builder chain,
      and stores the chosen entry of `options` into the field. Static options
      are bound to a local `options: &[T]`, so the items and the lookup read
      the same sequence whether it was baked in or passed by the caller. */
  function GenerateMethod(s: SelectSpec, fieldName: Option<string>, innerTy: Option<Ty>, theme: ThemeCode): (r: Result<GenMethod>)
    ensures r.Ok?
    ensures r.value.name == fieldName && r.value.builder == BUILDER
    ensures "prompt" in ParamNames(r.value.params) <==> s.prompt.None?
    ensures "options" in ParamNames(r.value.params) <==> s.options.None?
    ensures |r.value.params| == (if s.prompt.None? then 1 else 0) + (if s.options.None? then 1 else 0)
    ensures ChainOrdered(r.value.steps)
    ensures HasDefaultStep(r.value.steps) <==> s.default.Some?
    ensures r.value.steps[0] == (if theme == 0 then New else WithTheme(GetTheme(theme).value))
    ensures s.prompt.None? ==> r.value.params[0] == Param("prompt", StrRef)
    ensures s.options.None? ==> r.value.params[|r.value.params| - 1] == Param("options", SliceRef(innerTy))
    ensures r.value.binding.Some? <==> s.options.Some?
    ensures s.options.Some? ==> r.value.binding == Some(Binding("options", innerTy, s.options.value))
    ensures r.value.steps[|r.value.steps| - 2] == Items(r.value.assign.source)
    ensures r.value.assign == AssignSome(fieldName, "options")
    ensures WellScoped(r.value)
  {
    SynthScoped(s, fieldName, innerTy, theme);
    Ok(GenMethod(BUILDER, fieldName, SynthParams(s, innerTy), SynthBinding(s, innerTy), SynthChain(s, theme), AssignSome(fieldName, "options")))
  }

  /** Static options become a local `options: &[T]`. */
  function SynthBinding(s: SelectSpec, innerTy: Option<Ty>): (b: Option<Binding>)
    ensures b.Some? <==> s.options.Some?
    ensures s.options.Some? ==> b == Some(Binding("options", innerTy, s.options.value))
  {
    match s.options
    case Some(xs) => Some(Binding("options", innerTy, xs))
    case None => None
  }

  /** Every name the synthesised body uses is bound exactly once. */
  lemma SynthScoped(s: SelectSpec, fieldName: Option<string>, innerTy: Option<Ty>, theme: ThemeCode)
    ensures WellScoped(GenMethod(BUILDER, fieldName, SynthParams(s, innerTy), SynthBinding(s, innerTy), SynthChain(s, theme), AssignSome(fieldName, "options")))
  {
    var m := GenMethod(BUILDER, fieldName, SynthParams(s, innerTy), SynthBinding(s, innerTy), SynthChain(s, theme), AssignSome(fieldName, "options"));
    assert Bound(m, "options");
  }

  // ----- Inverse of synthesis -----

  /** The first prompt step's argument, if the chain has one. */
  function PromptOf(steps: seq<Step>): Option<PromptArg> {
    if |steps| == 0 then None
    else if steps[0].WithPrompt? then Some(steps[0].prompt)
    else PromptOf(steps[1..])
  }

  /** The first default step's index, if the chain has one. */
  function DefaultOf(steps: seq<Step>): Option<nat> {
    if |steps| == 0 then None
    else if steps[0].DefaultIndex? then Some(steps[0].index)
    else DefaultOf(steps[1..])
  }

  /** Reads back from an emitted method what was baked into it: a literal
      prompt, a default step, static options. */
  function SpecOf(m: GenMethod): SelectSpec {
    SelectSpec(
      prompt := match PromptOf(m.steps) case Some(PromptLit(p)) => Some(p) case _ => None,
      default := DefaultOf(m.steps),
      options := match m.binding case Some(b) => Some(b.elems) case None => None)
  }

  /** The emitted method records the spec exactly: no configuration is lost
      and none is invented, whatever the field, item type and theme. */
  lemma SynthesisKeepsSpec(s: SelectSpec, fieldName: Option<string>, innerTy: Option<Ty>, theme: ThemeCode)
    ensures SpecOf(GenerateMethod(s, fieldName, innerTy, theme).value) == s
  {
    var steps := GenerateMethod(s, fieldName, innerTy, theme).value.steps;
    assert steps[1..][0] == steps[1];
    assert PromptOf(steps) == Some(steps[1].prompt);
    var tail := steps[2..];
    assert steps[1..][1..] == tail;
    assert DefaultOf(steps) == DefaultOf(tail);
    match s.default
    case Some(n) =>
      assert tail[0] == DefaultIndex(n);
    case None =>
      assert tail == [Items("options"), Interact];
      assert DefaultOf(tail) == DefaultOf(tail[1..]);
      assert tail[1..][1..] == [];
      assert DefaultOf(tail[1..]) == DefaultOf([]);
  }
}
