/** Small stand-ins for the parts of the `syn` crate that the `Asker` derive
    macro inspects: declared field types, field attributes with their nested
    `key = literal` options, and `syn::Error`. Token streams, spans and
    hygiene are not represented. */
module Syntax {

  datatype Option<+T> = None | Some(value: T)

  /** `syn::Result`: a value, or the diagnostic the macro reports. Usable
      with `:-`, which plays the part of Rust's `?`. */
  datatype Result<+T> = Ok(value: T) | Err(error: Error) {
    predicate IsFailure() {
      Err?
    }

    function PropagateFailure<U>(): Result<U>
      requires Err?
    {
      Err(error)
    }

    function Extract(): T
      requires Ok?
    {
      value
    }
  }

  /** A declared type: a single-segment path `name<args…>` (`String`,
      `Option<bool>`, `Vec<T>`), or any other type form (reference, tuple,
      slice, qualified or multi-segment path). */
  datatype Ty = Path(name: string, args: seq<Ty>) | Other

  /** The type written as the bare identifier `name`, which is exactly what
      `syn::Path::is_ident(name)` accepts. */
  function Ident(name: string): Ty {
    Path(name, [])
  }

  /** `utils::get_inner_type(ty, outer)`. Its source is not part of this
      model; it is assumed to unwrap exactly one level: `outer<T>` gives `T`,
      every other type gives nothing. */
  function GetInnerType(ty: Ty, outer: string): (r: Option<Ty>)
    ensures r.Some? ==> ty == Path(outer, [r.value])
    ensures (exists t :: ty == Path(outer, [t])) ==> r.Some?
  {
    if ty.Path? && ty.name == outer && |ty.args| == 1 then Some(ty.args[0]) else None
  }

  /** A literal option value. `Array` is an array expression `[e, …]`; its
      elements are kept as opaque source text and never interpreted. */
  datatype Lit = Str(s: string) | Int(n: nat) | Bool(b: bool) | Array(elems: seq<string>) | OtherExpr

  /** The literal forms a nested option may be required to hold. */
  datatype LitKind = StrLit | IntLit | ArrayLit

  /** One nested option `key = value`; `value` is `None` when no `= value`
      follows the key (a bare `key` or `key(…)`). */
  datatype Meta = Meta(key: string, value: Option<Lit>)

  /** What follows the attribute's name: nothing (`#[select]`), `= value`
      (`#[select = …]`) or a parenthesised option list (`#[select(…)]`). */
  datatype AttrArgs = PathOnly | NameValue | List(metas: seq<Meta>)

  /** A field attribute. A multi-segment attribute path is represented by its
      full text, which never equals a single identifier. */
  datatype Attr = Attr(tag: string, args: AttrArgs)

  /** `usize::MAX` on the 64-bit targets the macro is built for. */
  const USIZE_MAX: nat := 0xFFFF_FFFF_FFFF_FFFF

  /** `syn::Error`, with the element it points at. */
  datatype Error =
    | Spanned(ty: Ty, message: string)          // `Error::new_spanned(&field.ty, …)`
    | AtMeta(key: string, message: string)      // `meta.error(…)`
    | ExpectedEquals(key: string)               // `meta.value()` found no `=`
    | ExpectedLiteral(key: string, kind: LitKind) // the value is not the required literal
    | OutOfRange(key: string, n: nat)           // `base10_parse::<usize>()` overflowed
    | ExpectedArguments(tag: string)            // `#[tag]` has no parenthesised list
    | ExpectedParentheses(tag: string)          // `#[tag = …]` instead of `#[tag(…)]`

  /** The option loop of `Attribute::parse_nested_meta`: the callback sees
      the options in order, and the first error it returns ends the parse. */
  function FoldMetas<S>(ms: seq<Meta>, acc: S, f: (S, Meta) -> Result<S>): Result<S>
    decreases |ms|
  {
    if |ms| == 0 then Ok(acc)
    else
      match f(acc, ms[0])
      case Err(e) => Err(e)
      case Ok(next) => FoldMetas(ms[1..], next, f)
  }

  /** `Attribute::parse_nested_meta`: only a parenthesised list can be
      parsed; the two other attribute forms are rejected before the callback
      runs. */
  function ParseNestedMeta<S>(a: Attr, init: S, f: (S, Meta) -> Result<S>): Result<S> {
    match a.args
    case PathOnly => Err(ExpectedArguments(a.tag))
    case NameValue => Err(ExpectedParentheses(a.tag))
    case List(ms) => FoldMetas(ms, init, f)
  }
}
