/** Formatting maps and their algebra (crates/gal-ot/src/attributes.rs). */
module Attributes {

  /** A JSON value. `Null` is set apart because it means "remove this attribute"; every other
      value is known only up to equality. */
  datatype Value = Null | Json(text: string)

  type Attrs = map<string, Value>

  function WithoutNulls(m: Attrs): (r: Attrs)
  {
    map k | k in m && m[k] != Null :: m[k]
  }

  /** `b` on top of `a`: what `b` mentions, then what only `a` mentions. Removals written in
      `b` survive only when `keepNull` is set. */
  function Composed(a: Attrs, b: Attrs, keepNull: bool): Attrs {
    map k | k in a.Keys + b.Keys && (k in b && !keepNull ==> b[k] != Null)
      :: if k in b then b[k] else a[k]
  }

  /** What is left of `b` once a concurrent `a` has been applied. With `priority`, `a` wins
      every key both of them set. */
  function Transformed(a: Attrs, b: Attrs, priority: bool): Attrs {
    if !priority then b else map k | k in b && k !in a :: b[k]
  }

  /** The map that takes `base` with `attr` applied back to `base`. */
  function Inverted(attr: Attrs, base: Attrs): Attrs {
    map k | k in attr && (k in base ==> base[k] != attr[k]) :: if k in base then base[k] else Null
  }

  /** The effect of the formatting `attr` on a run that carries `base`. */
  function Format(base: Attrs, attr: Attrs): Attrs {
    Composed(base, attr, false)
  }

  lemma FormatWithNothing(base: Attrs)
    ensures Format(base, map[]) == base
    ensures forall keepNull :: Composed(base, map[], keepNull) == base
    ensures Composed(map[], base, true) == base
    ensures forall priority :: Transformed(map[], base, priority) == base
    ensures forall priority :: Transformed(base, map[], priority) == map[]
  {
  }

  /** Formatting twice is formatting once with the composed map. */
  lemma FormatComposed(base: Attrs, a: Attrs, b: Attrs)
    ensures Format(Format(base, a), b) == Format(base, Composed(a, b, true))
    ensures Format(Composed(base, a, false), b) == Format(Format(base, a), b)
  {
  }

  /** What formatting does, key by key: a key it gives a value has that value, a key it gives null is
      gone, and every other key stays as it was. */
  lemma FormatGives(base: Attrs, attr: Attrs, k: string)
    ensures var r := Format(base, attr);
            && (k in attr && attr[k] != Null ==> k in r && r[k] == attr[k])
            && (k in attr && attr[k] == Null ==> k !in r)
            && (k !in attr && k in base ==> k in r && r[k] == base[k])
            && (k !in attr && k !in base ==> k !in r)
  {
  }

  /** The prioritised formatting acts as if it had come last, whichever did. */
  lemma PriorityActsLast(base: Attrs, a: Attrs, b: Attrs)
    ensures Format(Format(base, a), Transformed(a, b, true)) == Format(Format(base, b), a)
    ensures Format(Format(base, b), Transformed(b, a, false)) == Format(Format(base, b), a)
  {
  }

  /** Two concurrent formattings reach the same map in either order, `a` winning. */
  lemma FormatConverges(base: Attrs, a: Attrs, b: Attrs)
    ensures Format(Format(base, a), Transformed(a, b, true)) == Format(Format(base, b), Transformed(b, a, false))
  {
  }

  /** No attribute that `attr` mentions is stored as an explicit null in `base`. */
  predicate NoNullUnder(attr: Attrs, base: Attrs) {
    forall k | k in attr && k in base :: base[k] != Null
  }

  /** Undoing a formatting is exact precisely when the run held no explicit null under it. */
  lemma InvertExactIff(base: Attrs, attr: Attrs)
    ensures Format(Format(base, attr), Inverted(attr, base)) == base <==> NoNullUnder(attr, base)
  {
    var back := Format(Format(base, attr), Inverted(attr, base));
    if NoNullUnder(attr, base) {
      assert back == base;
    } else {
      var k :| k in attr && k in base && base[k] == Null;
      assert k !in back;
    }
  }

  /** A document run holds no explicit null; formatting and inverting keep it so. */
  predicate NullFree(m: Attrs) {
    forall k | k in m :: m[k] != Null
  }

  lemma FormatKeepsNullFree(base: Attrs, attr: Attrs)
    requires NullFree(base)
    ensures NullFree(Format(base, attr))
    ensures NoNullUnder(attr, base)
  {
  }

  /** `compose`: start from `b`, then add what only `a` has. */
  method ComposeAttributes(a: Attrs, b: Attrs, keepNull: bool) returns (out: Attrs)
    ensures out == Composed(a, b, keepNull)
  {
    out := if keepNull then b else WithoutNulls(b);
    var todo := a.Keys;
    while todo != {}
      invariant todo <= a.Keys
      invariant out.Keys == Composed(a, b, keepNull).Keys - (todo - b.Keys)
      invariant forall k | k in out :: out[k] == Composed(a, b, keepNull)[k]
      decreases todo
    {
      var key :| key in todo;
      todo := todo - {key};
      if key !in b {
        out := out[key := a[key]];
      }
    }
  }

  /** `invert`: restore what `attr` overwrote, then remove what it introduced. */
  method InvertAttributes(attr: Attrs, base: Attrs) returns (out: Attrs)
    ensures out == Inverted(attr, base)
  {
    out := map[];
    ghost var goal := Inverted(attr, base);
    var todo := base.Keys;
    while todo != {}
      invariant todo <= base.Keys
      invariant out.Keys == goal.Keys * base.Keys - todo
      invariant forall k | k in out :: out[k] == goal[k]
      decreases todo
    {
      var key :| key in todo;
      todo := todo - {key};
      if key in attr && base[key] != attr[key] {
        out := out[key := base[key]];
      }
    }
    todo := attr.Keys;
    while todo != {}
      invariant todo <= attr.Keys
      invariant out.Keys == goal.Keys - (todo - base.Keys)
      invariant forall k | k in out :: out[k] == goal[k]
      decreases todo
    {
      var key :| key in todo;
      todo := todo - {key};
      if key !in base {
        out := out[key := Null];
      }
    }
  }
}
