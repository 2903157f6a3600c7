/** The shape of the code the macro emits, as structured data rather than
    tokens, and the process-wide theme choice that decides how every emitted
    prompt builder is constructed. */
module Codegen {
  import opened Syntax

  /** The values the `DIALOGUE_THEME` switch can hold when a method is
      generated; any other value reaches `unreachable!()`. */
  type ThemeCode = c: int | 0 <= c <= 2

  /** The switch's value before a `theme` attribute changes it. */
  const INITIAL_THEME: ThemeCode := 1

  /** The two theme expressions a builder can be constructed with:
      `&dialogue_macro::dialoguer::theme::ColorfulTheme::default()` and the
      re-exported `&dialogue_macro::ColorfulTheme::default()`. */
  datatype Theme = DialoguerColorful | ReexportedColorful

  /** The switch value that selects a given constructor form. */
  function CodeOf(t: Option<Theme>): ThemeCode {
    match t
    case None => 0
    case Some(DialoguerColorful) => 1
    case Some(ReexportedColorful) => 2
  }

  /** `ParseFieldAttr::get_theme`: no theme for 0, the dialoguer colourful
      theme for 1, the re-exported one for 2. The three codes give three
      different constructor forms, and `CodeOf` recovers the code. */
  function GetTheme(code: ThemeCode): (r: Option<Theme>)
    ensures CodeOf(r) == code
    ensures r.None? <==> code == 0
  {
    match code
    case 0 => None
    case 1 => Some(DialoguerColorful)
    case 2 => Some(ReexportedColorful)
  }

  /** The type of a synthesised parameter: `&str` or `&[T]`. The element type
      is whatever item type the generator was handed, possibly none. */
  datatype ParamTy = StrRef | SliceRef(elem: Option<Ty>)

  datatype Param = Param(name: string, ty: ParamTy)

  /** The argument of `.with_prompt(…)`: a baked-in literal or a variable. */
  datatype PromptArg = PromptLit(text: string) | PromptVar(name: string)

  /** One link of the emitted builder chain
      `Builder::new()`/`Builder::with_theme(t)` `.with_prompt(p)`
      `.default(n)` `.items(xs)` `.interact().unwrap()`. */
  datatype Step =
    | New
    | WithTheme(theme: Theme)
    | WithPrompt(prompt: PromptArg)
    | DefaultIndex(index: nat)
    | Items(source: string)
    | Interact

  /** A local `let name: &[elem] = &vec![elems…];` binding static options. */
  datatype Binding = Binding(name: string, elem: Option<Ty>, elems: seq<string>)

  /** `self.field = Some(source[res].clone().into());`, where `res` is the
      index the builder chain returned. */
  datatype Assign = AssignSome(field: Option<string>, source: string)

  /** One emitted setter in the shape of the select setter,
      `pub fn name(&mut self, params…) -> &mut Self { binding? let res = steps…; assign; self }`
      on the dialoguer builder type `builder`; the receiver and the return
      type are not stored. The other prompt kinds' generators are not
      modelled and use this type only as an opaque result. */
  datatype GenMethod = GenMethod(
    builder: string,
    name: Option<string>,
    params: seq<Param>,
    binding: Option<Binding>,
    steps: seq<Step>,
    assign: Assign)

  /** The names of a parameter list, in order. */
  function ParamNames(ps: seq<Param>): (r: seq<string>)
    ensures |r| == |ps|
    ensures forall i | 0 <= i < |ps| :: r[i] == ps[i].name
  {
    if |ps| == 0 then [] else [ps[0].name] + ParamNames(ps[1..])
  }

  /** `x` names a parameter or the local options binding. */
  predicate Bound(m: GenMethod, x: string) {
    x in ParamNames(m.params) || (m.binding.Some? && m.binding.value.name == x)
  }

  /** Every name the body refers to is bound, and bound once: parameter
      names are distinct and the local binding shadows none of them. */
  predicate WellScoped(m: GenMethod) {
    && (forall i, j | 0 <= i < j < |m.params| :: m.params[i].name != m.params[j].name)
    && (m.binding.Some? ==> m.binding.value.name !in ParamNames(m.params))
    && (forall i | 0 <= i < |m.steps| && m.steps[i].WithPrompt? && m.steps[i].prompt.PromptVar? ::
          Bound(m, m.steps[i].prompt.name))
    && (forall i | 0 <= i < |m.steps| && m.steps[i].Items? :: Bound(m, m.steps[i].source))
    && Bound(m, m.assign.source)
  }

  /** The position each kind of step takes in a builder chain. */
  function Rank(s: Step): nat {
    match s
    case New => 0
    case WithTheme(_) => 0
    case WithPrompt(_) => 1
    case DefaultIndex(_) => 2
    case Items(_) => 3
    case Interact => 4
  }

  /** A builder chain that starts with a constructor, ends with the blocking
      `interact` call, and sets each option at most once, in the order
      prompt, default, items. */
  predicate ChainOrdered(steps: seq<Step>) {
    && |steps| >= 2
    && Rank(steps[0]) == 0
    && steps[|steps| - 1] == Interact
    && forall i | 0 < i < |steps| :: Rank(steps[i - 1]) < Rank(steps[i])
  }
}
