/** The Decorator page: a component wrapped in a chain of decorators, each
    of which passes the inner text through or wraps it, and a meal whose
    description grows with each topping or side added to it. Wrapped objects
    are fixed when a decorator is built and never change, so the chains are
    values. */
module Decorator {

  datatype Option<T> = None | Some(value: T)

  // ---------------------------------------------------------------------
  // Components

  // The fixed texts of both examples are zero-argument functions rather than
  // constants: as constants, their literal values entered every sequence
  // proof below and made those proofs far more expensive for the solver.
  function CoreName(): string { "ConcreteComponent" }
  function NameA(): string { "ConcreteDecoratorA" }
  function NameB(): string { "ConcreteDecoratorB" }
  function OpenA(): string { NameA() + "(" }
  function OpenB(): string { NameB() + "(" }
  function Close(): string { ")" }

  /** The facts about the fixed names that the proofs below use. */
  lemma NameFacts()
    ensures |CoreName()| == 17 && |OpenA()| == 19 && |OpenB()| == 19 && |Close()| == 1
    ensures '(' !in CoreName() && ')' !in CoreName()
    ensures '(' !in NameA() && ')' !in NameA() && '(' !in NameB() && ')' !in NameB()
    ensures OpenA()[17] != OpenB()[17] && Close()[0] == ')'
  {
  }

  /** A component and the decorators around it, outermost first. */
  datatype Component =
    | ConcreteComponent
    | Decorator(component: Component)
    | ConcreteDecoratorA(component: Component)
    | ConcreteDecoratorB(component: Component)

  /** `operation()`: the base names itself, a plain decorator forwards to the
      component it wraps, the two concrete decorators put their own name and
      parentheses around what the wrapped component says. */
  function Operation(c: Component): (r: string)
    ensures |r| == |CoreName()| + 20 * Wrappings(c)
  {
    match c
    case ConcreteComponent => CoreName()
    case Decorator(inner) => Operation(inner)
    case ConcreteDecoratorA(inner) => OpenA() + Operation(inner) + Close()
    case ConcreteDecoratorB(inner) => OpenB() + Operation(inner) + Close()
  }

  /** The number of layers that add text: the A and B decorators. */
  function Wrappings(c: Component): nat
  {
    match c
    case ConcreteComponent => 0
    case Decorator(inner) => Wrappings(inner)
    case ConcreteDecoratorA(inner) => Wrappings(inner) + 1
    case ConcreteDecoratorB(inner) => Wrappings(inner) + 1
  }

  /** `outer` is `inner` with zero or more decorators around it. */
  ghost predicate Wraps(outer: Component, inner: Component)
  {
    outer == inner || (!outer.ConcreteComponent? && Wraps(outer.component, inner))
  }

  /** `t` occurs in `s` starting at index `k`. */
  ghost predicate Embeds(s: string, t: string, k: int)
  {
    0 <= k && k + |t| <= |s| && s[k..k + |t|] == t
  }

  /** What a wrapped component says appears unchanged inside what the
      wrapping chain says, after one 19-character opening per A or B layer in
      between; each such layer adds 20 characters in all. */
  lemma {:induction false} OperationNests(outer: Component, inner: Component)
    requires Wraps(outer, inner)
    ensures Wrappings(inner) <= Wrappings(outer)
    ensures |Operation(outer)| == |Operation(inner)| + 20 * (Wrappings(outer) - Wrappings(inner))
    ensures Embeds(Operation(outer), Operation(inner), 19 * (Wrappings(outer) - Wrappings(inner)))
  {
    if outer == inner {
      Reembed(Operation(outer), Operation(inner), Operation(inner), 0, 19 * (Wrappings(outer) - Wrappings(inner)));
    } else {
      var c := outer.component;
      OperationNests(c, inner);
      var i, k := 19 * (Wrappings(c) - Wrappings(inner)), 19 * (Wrappings(outer) - Wrappings(inner));
      match outer
      case Decorator(_) =>
        Reembed(Operation(outer), Operation(c), Operation(inner), i, k);
      case ConcreteDecoratorA(_) =>
        NestStep(Operation(outer), OpenA(), Operation(c), Operation(inner), i, k);
      case ConcreteDecoratorB(_) =>
        NestStep(Operation(outer), OpenB(), Operation(c), Operation(inner), i, k);
    }
  }

  /** A layer that adds no text leaves an embedded text where it was. */
  lemma Reembed(s: string, x: string, y: string, i: int, k: int)
    requires s == x && k == i && Embeds(x, y, i)
    ensures Embeds(s, y, k)
  {
  }

  /** One wrapping layer moves an embedded text 19 characters to the right. */
  lemma NestStep(s: string, open: string, x: string, y: string, i: int, k: int)
    requires s == open + x + Close()
    requires |open| == 19 && k == i + 19 && Embeds(x, y, i)
    ensures Embeds(s, y, k)
  {
    assert s[k..k + |y|] == x[i..i + |y|];
  }

  /** What follows the wrapped component's text is one closing parenthesis
      per A or B layer in between. */
  lemma {:induction false} OperationCloses(outer: Component, inner: Component)
    requires Wraps(outer, inner)
    ensures Wrappings(inner) <= Wrappings(outer)
    ensures var d := Wrappings(outer) - Wrappings(inner);
            forall i :: 19 * d + |Operation(inner)| <= i < |Operation(outer)| ==> Operation(outer)[i] == ')'
  {
    OperationNests(outer, inner);
    if outer != inner {
      var c := outer.component;
      OperationCloses(c, inner);
      OperationNests(c, inner);
      match outer
      case Decorator(_) =>
      case ConcreteDecoratorA(_) =>
        IndexOfWrapped(OpenA(), Operation(c));
      case ConcreteDecoratorB(_) =>
        IndexOfWrapped(OpenB(), Operation(c));
    }
  }

  lemma IndexOfWrapped(open: string, x: string)
    requires |open| == 19
    ensures |open + x + Close()| == |x| + 20
    ensures forall k :: 19 <= k < |x| + 19 ==> (open + x + Close())[k] == x[k - 19]
    ensures (open + x + Close())[|x| + 19] == ')'
  {
  }

  lemma {:induction false} WrapsBase(c: Component)
    ensures Wraps(c, ConcreteComponent)
  {
    if !c.ConcreteComponent? {
      WrapsBase(c.component);
    }
  }

  /** Every chain ends in the concrete component, so what it says holds
      "ConcreteComponent" after 19 characters per A or B layer, followed by
      one closing parenthesis per such layer. */
  lemma {:induction false} ContainsCoreName(c: Component)
    ensures |Operation(c)| == |CoreName()| + 20 * Wrappings(c)
    ensures Operation(c)[19 * Wrappings(c)..19 * Wrappings(c) + |CoreName()|] == CoreName()
    ensures forall i :: 19 * Wrappings(c) + |CoreName()| <= i < |Operation(c)| ==> Operation(c)[i] == ')'
  {
    WrapsBase(c);
    OperationNests(c, ConcreteComponent);
    OperationCloses(c, ConcreteComponent);
  }

  /** How many times `ch` occurs in `s`. */
  function Occurrences(s: string, ch: char): nat
  {
    if s == [] then 0 else (if s[0] == ch then 1 else 0) + Occurrences(s[1..], ch)
  }

  lemma {:induction false} OccurrencesAppend(a: string, b: string, ch: char)
    ensures Occurrences(a + b, ch) == Occurrences(a, ch) + Occurrences(b, ch)
  {
    if a != [] {
      assert (a + b)[1..] == a[1..] + b;
      OccurrencesAppend(a[1..], b, ch);
    } else {
      assert a + b == b;
    }
  }

  lemma {:induction false} OccurrencesAbsent(s: string, ch: char)
    requires ch !in s
    ensures Occurrences(s, ch) == 0
  {
    if s != [] {
      OccurrencesAbsent(s[1..], ch);
    }
  }

  /** The text holds as many opening as closing parentheses: one of each per
      A or B layer. */
  lemma {:induction false} OperationBalanced(c: Component)
    ensures Occurrences(Operation(c), '(') == Wrappings(c)
    ensures Occurrences(Operation(c), ')') == Wrappings(c)
  {
    NameFacts();
    match c
    case ConcreteComponent =>
      OccurrencesAbsent(CoreName(), '(');
      OccurrencesAbsent(CoreName(), ')');
    case Decorator(inner) =>
      OperationBalanced(inner);
    case ConcreteDecoratorA(inner) =>
      OperationBalanced(inner);
      WrappedCounts(NameA(), Operation(inner));
    case ConcreteDecoratorB(inner) =>
      OperationBalanced(inner);
      WrappedCounts(NameB(), Operation(inner));
  }

  /** Wrapping a text in a parenthesis-free name and a pair of parentheses
      adds one of each. */
  lemma WrappedCounts(name: string, x: string)
    requires '(' !in name && ')' !in name
    ensures Occurrences(name + "(" + x + Close(), '(') == Occurrences(x, '(') + 1
    ensures Occurrences(name + "(" + x + Close(), ')') == Occurrences(x, ')') + 1
  {
    OccurrencesAbsent(name, '(');
    OccurrencesAbsent(name, ')');
    forall ch | ch == '(' || ch == ')'
      ensures Occurrences(name + "(" + x + Close(), ch)
           == Occurrences(name, ch) + Occurrences("(", ch) + Occurrences(x, ch) + Occurrences(Close(), ch)
    {
      OccurrencesAppend(name + "(" + x, Close(), ch);
      OccurrencesAppend(name + "(", x, ch);
      OccurrencesAppend(name, "(", ch);
    }
    assert Occurrences("(", '(') == 1 && Occurrences("(", ')') == 0;
    assert Occurrences(Close(), '(') == 0 && Occurrences(Close(), ')') == 1;
  }

  /** The chain without its plain decorators, which add nothing. */
  function Strip(c: Component): Component
  {
    match c
    case ConcreteComponent => ConcreteComponent
    case Decorator(inner) => Strip(inner)
    case ConcreteDecoratorA(inner) => ConcreteDecoratorA(Strip(inner))
    case ConcreteDecoratorB(inner) => ConcreteDecoratorB(Strip(inner))
  }

  /** Plain decorators are transparent: removing them anywhere in a chain
      does not change what it says. */
  lemma {:induction false} OperationStrip(c: Component)
    ensures Operation(Strip(c)) == Operation(c)
  {
    match c
    case ConcreteComponent =>
    case Decorator(inner) => OperationStrip(inner);
    case ConcreteDecoratorA(inner) => OperationStrip(inner);
    case ConcreteDecoratorB(inner) => OperationStrip(inner);
  }

  /** Reads a chain without plain decorators back from its text. */
  function Parse(s: string): Option<Component>
    decreases |s|
  {
    if s == CoreName() then Some(ConcreteComponent)
    else if |s| > |OpenA()| && s[..|OpenA()|] == OpenA() && s[|s| - 1] == ')' then
      match Parse(s[|OpenA()|..|s| - 1])
      case Some(inner) => Some(ConcreteDecoratorA(inner))
      case None => None
    else if |s| > |OpenB()| && s[..|OpenB()|] == OpenB() && s[|s| - 1] == ')' then
      match Parse(s[|OpenB()|..|s| - 1])
      case Some(inner) => Some(ConcreteDecoratorB(inner))
      case None => None
    else None
  }

  /** The text of a chain determines the chain up to plain decorators. */
  lemma {:induction false} ParseOperation(c: Component)
    ensures Parse(Operation(c)) == Some(Strip(c))
  {
    NameFacts();
    match c
    case ConcreteComponent =>
    case Decorator(inner) =>
      ParseOperation(inner);
    case ConcreteDecoratorA(inner) =>
      ParseOperation(inner);
      Unwrap(OpenA(), Operation(inner));
    case ConcreteDecoratorB(inner) =>
      ParseOperation(inner);
      Unwrap(OpenB(), Operation(inner));
      assert Operation(c)[..|OpenA()|] != OpenA() by {
        assert Operation(c)[..|OpenA()|][17] == OpenB()[17];
      }
  }

  /** Taking a wrapped text apart gives back its opening, its body and its
      closing parenthesis. */
  lemma Unwrap(open: string, x: string)
    ensures var s := open + x + Close();
            && |s| == |open| + |x| + 1
            && s[..|open|] == open && s[|open|..|s| - 1] == x && s[|s| - 1] == ')'
  {
  }

  /** Whatever Parse accepts is exactly the text of the chain it returns,
      and that chain has no plain decorators. */
  lemma {:induction false} OperationParse(s: string, c: Component)
    requires Parse(s) == Some(c)
    ensures Operation(c) == s && Strip(c) == c
    decreases |s|
  {
    NameFacts();
    if s == CoreName() {
    } else if |s| > |OpenA()| && s[..|OpenA()|] == OpenA() && s[|s| - 1] == ')' {
      OperationParse(s[|OpenA()|..|s| - 1], c.component);
      Rewrap(s, OpenA());
    } else {
      OperationParse(s[|OpenB()|..|s| - 1], c.component);
      Rewrap(s, OpenB());
    }
  }

  /** A text that starts with an opening and ends with a closing parenthesis
      is that opening, the body between them, and the parenthesis. */
  lemma Rewrap(s: string, open: string)
    requires |s| > |open| && s[..|open|] == open && s[|s| - 1] == ')'
    ensures s == open + s[|open|..|s| - 1] + Close()
  {
    assert s == s[..|open|] + s[|open|..|s| - 1] + s[|s| - 1..];
  }

  /** Two chains say the same thing exactly when they agree once their plain
      decorators are removed. */
  lemma OperationInjective(c1: Component, c2: Component)
    ensures Operation(c1) == Operation(c2) <==> Strip(c1) == Strip(c2)
  {
    ParseOperation(c1);
    ParseOperation(c2);
    OperationStrip(c1);
    OperationStrip(c2);
  }

  // ---------------------------------------------------------------------
  // Meals

  function BasicDescription(): string { "Basic meal" }
  function ToppingLead(): string { ", with " }
  function SideLead(): string { ", with a side of " }

  /** A basic meal and the decorators added to it, outermost first. Their
      prices are not part of this model. */
  datatype Meal =
    | BasicMeal
    | MealDecorator(meal: Meal)
    | ToppingDecorator(meal: Meal, topping: string)
    | SideDecorator(meal: Meal, side: string)

  /** `getDescription()`: the basic meal says "Basic meal", a plain decorator
      forwards, a topping or a side appends its own phrase. */
  function GetDescription(m: Meal): (r: string)
    ensures BasicDescription() <= r
    ensures m.MealDecorator? ==> r == GetDescription(m.meal)
    ensures m.ToppingDecorator? ==>
              (GetDescription(m.meal) <= r && r[|GetDescription(m.meal)|..] == ToppingLead() + m.topping)
    ensures m.SideDecorator? ==>
              (GetDescription(m.meal) <= r && r[|GetDescription(m.meal)|..] == SideLead() + m.side)
  {
    match m
    case BasicMeal => BasicDescription()
    case MealDecorator(inner) => GetDescription(inner)
    case ToppingDecorator(inner, topping) =>
      Appended(BasicDescription(), GetDescription(inner), ToppingLead() + topping);
      GetDescription(inner) + (ToppingLead() + topping)
    case SideDecorator(inner, side) =>
      Appended(BasicDescription(), GetDescription(inner), SideLead() + side);
      GetDescription(inner) + (SideLead() + side)
  }

  /** Appending to a text keeps it, and every prefix of it, as a prefix, and
      what follows it is exactly what was appended. */
  lemma Appended(p: string, x: string, y: string)
    requires p <= x
    ensures x <= x + y && p <= x + y && (x + y)[|x|..] == y
  {
  }


  /** The characters each layer appends: 7 plus the topping for a topping, 17
      plus the side for a side, none for a plain decorator. */
  function LayerLength(m: Meal): nat
  {
    match m
    case BasicMeal => 0
    case MealDecorator(_) => 0
    case ToppingDecorator(_, topping) => |ToppingLead()| + |topping|
    case SideDecorator(_, side) => |SideLead()| + |side|
  }

  /** `outer` is `inner` with zero or more decorators around it. */
  ghost predicate MealWraps(outer: Meal, inner: Meal)
  {
    outer == inner || (!outer.BasicMeal? && MealWraps(outer.meal, inner))
  }

  /** The layers from `outer` down to, not including, `inner`: the sum of
      what each appends. */
  function AddedLength(outer: Meal, inner: Meal): nat
  {
    if outer == inner || outer.BasicMeal? then 0
    else LayerLength(outer) + AddedLength(outer.meal, inner)
  }

  /** The description of a wrapped meal is a prefix of the description of any
      chain around it, and the chain adds exactly the lengths of its layers'
      phrases. */
  lemma {:induction false} DescriptionNests(outer: Meal, inner: Meal)
    requires MealWraps(outer, inner)
    ensures GetDescription(inner) <= GetDescription(outer)
    ensures |GetDescription(outer)| == |GetDescription(inner)| + AddedLength(outer, inner)
  {
    if outer != inner {
      DescriptionNests(outer.meal, inner);
    }
  }

  lemma {:induction false} MealWrapsBase(m: Meal)
    ensures MealWraps(m, BasicMeal)
  {
    if !m.BasicMeal? {
      MealWrapsBase(m.meal);
    }
  }

  /** Every description starts with "Basic meal", followed by exactly what
      the layers append. */
  lemma {:induction false} DescriptionStartsWithBasic(m: Meal)
    ensures BasicDescription() <= GetDescription(m)
    ensures |GetDescription(m)| == |BasicDescription()| + AddedLength(m, BasicMeal)
  {
    MealWrapsBase(m);
    DescriptionNests(m, BasicMeal);
  }
}
