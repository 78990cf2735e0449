/** Composition and transformation of changes unit by unit: the reference the op lists are
    measured against (crates/gal-ot/src/lib.rs, "Model"). */
module Algebra {
  import opened Attributes
  import opened Deltas

  /** Units of the base document that `atoms` keeps or removes. */
  function Need(atoms: seq<Atom>): nat {
    if atoms == [] then 0 else (if atoms[0].Ins? then 0 else 1) + Need(atoms[1..])
  }

  /** What `y` makes of one unit that `x` inserted or kept. */
  function ComposePair(x: Atom, y: Atom): seq<Atom>
    requires !x.Del? && !y.Ins?
  {
    match y
    case Ret(m) => if x.Ins? then [Ins(Cell(x.cell.sym, Composed(x.cell.attributes, m, false)))]
                   else [Ret(Composed(x.attributes, m, true))]
    case Del => if x.Ins? then [] else [Del]
  }

  function ComposeAtoms(a: seq<Atom>, b: seq<Atom>): seq<Atom>
    decreases |a| + |b|
  {
    if b != [] && b[0].Ins? then [b[0]] + ComposeAtoms(a, b[1..])
    else if a != [] && a[0].Del? then [Del] + ComposeAtoms(a[1..], b)
    else if a == [] then b
    else if b == [] then a
    else ComposePair(a[0], b[0]) + ComposeAtoms(a[1..], b[1..])
  }

  function TransformPair(x: Atom, y: Atom, priority: bool): seq<Atom>
    requires !x.Ins? && !y.Ins?
  {
    if x.Del? then []
    else if y.Del? then [Del]
    else [Ret(Transformed(x.attributes, y.attributes, priority))]
  }

  /** `b` rewritten so that it applies after `a`. */
  function TransformAtoms(a: seq<Atom>, b: seq<Atom>, priority: bool): seq<Atom>
    decreases |a| + |b|
  {
    if a != [] && a[0].Ins? && (priority || b == [] || !b[0].Ins?)
    then [Ret(map[])] + TransformAtoms(a[1..], b, priority)
    else if a == [] then b
    else if b != [] && b[0].Ins? then [b[0]] + TransformAtoms(a, b[1..], priority)
    else if b == [] then TransformPair(a[0], Ret(map[]), priority) + TransformAtoms(a[1..], [], priority)
    else TransformPair(a[0], b[0], priority) + TransformAtoms(a[1..], b[1..], priority)
  }

  /** Applying the composed change is applying the first and then the second. */
  lemma {:induction false} ComposeAtomsEffect(d: seq<Cell>, a: seq<Atom>, b: seq<Atom>)
    requires Need(a) <= |d|
    ensures Apply(d, ComposeAtoms(a, b)) == Apply(Apply(d, a), b)
    decreases |a| + |b|
  {
    if b != [] && b[0].Ins? {
      ComposeAtomsEffect(d, a, b[1..]);
    } else if a != [] && a[0].Del? {
      ComposeAtomsEffect(d[1..], a[1..], b);
    } else if a != [] && b != [] {
      var rest := ComposeAtoms(a[1..], b[1..]);
      if a[0].Ins? {
        ComposeAtomsEffect(d, a[1..], b[1..]);
        var cell := a[0].cell;
        assert Apply(d, a) == [cell] + Apply(d, a[1..]);
        assert Apply(d, a)[1..] == Apply(d, a[1..]);
        if b[0].Del? {
          assert ComposePair(a[0], b[0]) + rest == rest;
        }
      } else {
        ComposeAtomsEffect(d[1..], a[1..], b[1..]);
        var m := a[0].attributes;
        assert Apply(d, a)[1..] == Apply(d[1..], a[1..]);
        if b[0].Ret? {
          FormatComposed(d[0].attributes, m, b[0].attributes);
        }
      }
    }
  }
}
