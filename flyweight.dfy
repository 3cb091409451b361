/** The Flyweight page: shared objects built once per key and handed out by a
    factory that keeps them in a dictionary. Shared objects are class
    instances, so "the same flyweight" is reference equality. */
module Flyweight {
  import Cache

  const OperationOpening := "Flyweight: ConcreteFlyweight with intrinsic state '"
  const OperationMiddle := "', and extrinsic state '"
  const OperationClosing := "'"

  /** A shared object whose only state is the intrinsic state it was built
      with; it never changes afterwards. */
  class ConcreteFlyweight {
    const intrinsicState: string

    constructor (intrinsicState: string)
      ensures this.intrinsicState == intrinsicState
    {
      this.intrinsicState := intrinsicState;
    }

    /** The report of one use of the flyweight: the fixed opening, the
        intrinsic state, the fixed middle, the caller's extrinsic state, and a
        closing quote, in that order. */
    function Operation(extrinsicState: string): (r: string)
      ensures |r| == |OperationOpening| + |intrinsicState| + |OperationMiddle| + |extrinsicState| + 1
      ensures r[..|OperationOpening|] == OperationOpening
      ensures r[|OperationOpening|..|OperationOpening| + |intrinsicState|] == intrinsicState
      ensures r[|OperationOpening| + |intrinsicState|..|OperationOpening| + |intrinsicState| + |OperationMiddle|]
              == OperationMiddle
      ensures r[|OperationOpening| + |intrinsicState| + |OperationMiddle|..|r| - 1] == extrinsicState
      ensures r[|r| - 1] == '\''
    {
      OperationOpening + intrinsicState + OperationMiddle + extrinsicState + OperationClosing
    }
  }

  /** For one flyweight, the report tells the extrinsic states apart: two
      uses give the same text exactly when they pass the same extrinsic
      state. */
  lemma OperationDeterminesExtrinsic(f: ConcreteFlyweight, e1: string, e2: string)
    ensures f.Operation(e1) == f.Operation(e2) <==> e1 == e2
  {
  }

  /** The report depends on the flyweight only through its intrinsic state:
      for the same extrinsic state, two flyweights give the same text exactly
      when their intrinsic states are equal. */
  lemma OperationDeterminesIntrinsic(f: ConcreteFlyweight, g: ConcreteFlyweight, e: string)
    ensures f.Operation(e) == g.Operation(e) <==> f.intrinsicState == g.intrinsicState
  {
  }

  /** The factory of the abstract example: one flyweight per key, whose
      intrinsic state is that key. */
  class FlyweightFactory {
    var flyweights: map<string, ConcreteFlyweight>

    /** Every stored flyweight was built from the key it is stored under. */
    ghost predicate Valid()
      reads this
    {
      forall key :: key in flyweights ==> flyweights[key].intrinsicState == key
    }

    constructor ()
      ensures Valid() && flyweights == map[]
    {
      flyweights := map[];
    }

    /** Get-or-create: a hit returns the stored instance and leaves the
        dictionary alone; a miss builds a new flyweight from the key, stores
        it under the key and returns it. */
    method FlyweightFor(key: string) returns (f: ConcreteFlyweight)
      requires Valid()
      modifies this
      ensures Valid()
      ensures (flyweights, f) == Cache.GetOrCreate(old(flyweights), key, f)
      ensures key !in old(flyweights) ==> fresh(f)
      ensures f.intrinsicState == key
    {
      if key in flyweights {
        return flyweights[key];
      }
      f := new ConcreteFlyweight(key);
      flyweights := flyweights[key := f];
    }
  }

  /** Distinct keys of a factory hold distinct instances. */
  lemma DistinctKeysDistinctFlyweights(factory: FlyweightFactory, k1: string, k2: string)
    requires factory.Valid()
    requires k1 in factory.flyweights && k2 in factory.flyweights
    ensures factory.flyweights[k1] == factory.flyweights[k2] <==> k1 == k2
  {
  }

  /** Two lookups of the same key return the identical instance, and the
      dictionary after both is the dictionary after the first. */
  method LookupTwice(factory: FlyweightFactory, key: string) returns (first: ConcreteFlyweight, second: ConcreteFlyweight)
    requires factory.Valid()
    modifies factory
    ensures factory.Valid()
    ensures first == second && first.intrinsicState == key
    ensures factory.flyweights == Cache.GetOrCreate(old(factory.flyweights), key, first).0
  {
    first := factory.FlyweightFor(key);
    second := factory.FlyweightFor(key);
  }

  /** The intrinsic state of a character: its font and its colour. */
  datatype Style = Style(font: string, color: string)

  /** Which style a character code gets: "A" and "B" have their own, every
      other code falls to the default branch. */
  function StyleFor(code: string): (s: Style)
    ensures s == Style("Arial", "black") <==> code == "A"
    ensures s == Style("Helvetica", "blue") <==> code == "B"
    ensures s == Style("Times New Roman", "red") <==> code != "A" && code != "B"
  {
    if code == "A" then Style("Arial", "black")
    else if code == "B" then Style("Helvetica", "blue")
    else Style("Times New Roman", "red")
  }

  /** A shared glyph: a font and a colour fixed at construction. */
  class ConcreteCharacter {
    const font: string
    const color: string

    constructor (font: string, color: string)
      ensures this.font == font && this.color == color
    {
      this.font := font;
      this.color := color;
    }
  }

  /** The factory of the real-world example: one character per code. */
  class CharacterFactory {
    var characters: map<string, ConcreteCharacter>

    /** Every stored character has the style of its code, and no instance is
        stored under two codes. */
    ghost predicate Valid()
      reads this
    {
      && (forall code :: code in characters ==>
            Style(characters[code].font, characters[code].color) == StyleFor(code))
      && (forall c1, c2 :: c1 in characters && c2 in characters && c1 != c2 ==>
            characters[c1] != characters[c2])
    }

    constructor ()
      ensures Valid() && characters == map[]
    {
      characters := map[];
    }

    /** Get-or-create: a hit returns the stored character; a miss builds one
        in the style of the code, stores it under the code and returns it. */
    method CharacterFor(code: string) returns (c: ConcreteCharacter)
      requires Valid()
      modifies this
      ensures Valid()
      ensures (characters, c) == Cache.GetOrCreate(old(characters), code, c)
      ensures code !in old(characters) ==> fresh(c)
      ensures Style(c.font, c.color) == StyleFor(code)
    {
      if code in characters {
        return characters[code];
      }
      var style := StyleFor(code);
      c := new ConcreteCharacter(style.font, style.color);
      characters := characters[code := c];
    }
  }

  /** Two different codes that neither "A" nor "B" names get two distinct
      instances that carry the same font and colour. */
  method LookupUnrecognisedPair(factory: CharacterFactory, code1: string, code2: string)
    returns (c1: ConcreteCharacter, c2: ConcreteCharacter)
    requires factory.Valid()
    requires code1 != code2
    requires code1 != "A" && code1 != "B" && code2 != "A" && code2 != "B"
    modifies factory
    ensures factory.Valid()
    ensures factory.characters
         == Cache.GetOrCreate(Cache.GetOrCreate(old(factory.characters), code1, c1).0, code2, c2).0
    ensures code1 in factory.characters && factory.characters[code1] == c1
    ensures code2 in factory.characters && factory.characters[code2] == c2
    ensures c1 != c2
    ensures c1.font == c2.font == "Times New Roman" && c1.color == c2.color == "red"
  {
    c1 := factory.CharacterFor(code1);
    c2 := factory.CharacterFor(code2);
  }
}
