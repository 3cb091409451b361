# Flyweight caches and decorator chains

This project models the two pages of the DesignPatterns playgrounds that hold
checkable logic, and proves properties of the model in Dafny.

- **Flyweight** (`flyweight.dfy`, module `Flyweight`, with the shared
  get-or-create step in `cache.dfy`, module `Cache`). `ConcreteFlyweight` carries
  an intrinsic state fixed at construction. Its `operation(extrinsicState:)` builds a fixed
  report from the intrinsic and extrinsic states. `FlyweightFactory` and
  `CharacterFactory` each keep a dictionary keyed by string. On a hit they
  return the stored instance. On a miss they build one, store it and return it.
  `CharacterFactory` picks the font and colour from the code: `"A"`, `"B"`
  or the default branch. Shared objects are Dafny class instances, so "the
  same flyweight" is reference equality, as with Swift classes. The factories
  are classes whose `map` field their methods update.
- **Decorator** (`decorator.dfy`, module `Decorator`). A component wrapped in
  plain, A and B decorators, and a basic meal wrapped in plain, topping and side
  decorators. The wrapped object is fixed at `init` and never changes, so both
  chains are datatypes. `operation()` and `getDescription()` are recursive
  functions over them.

The code's own behaviour is what is modelled. The `default` branch of the
character switch gives every code other than `"A"` and `"B"` the Times New
Roman / red style. The source has no error path, so no code is ever rejected.
A miss on the Flyweight factory cannot fail either.

## Model

| member | source | states |
|---|---|---|
| Flyweight.ConcreteFlyweight.constructor | Patterns/Structural.playground/Pages/Flyweight.xcplaygroundpage/Contents.swift:14-16 | the new flyweight's intrinsic state is the one it was given |
| Flyweight.ConcreteFlyweight.Operation | Patterns/Structural.playground/Pages/Flyweight.xcplaygroundpage/Contents.swift:18-19 | the report is the fixed opening, then the intrinsic state, then the fixed middle, then the extrinsic state, then a closing quote; its length is the sum of theirs |
| Flyweight.OperationDeterminesExtrinsic | Patterns/Structural.playground/Pages/Flyweight.xcplaygroundpage/Contents.swift:18-19 | for one flyweight, two reports are equal exactly when the extrinsic states are equal |
| Flyweight.OperationDeterminesIntrinsic | Patterns/Structural.playground/Pages/Flyweight.xcplaygroundpage/Contents.swift:11-20 | the report depends on the object only through its intrinsic state: for one extrinsic state, two flyweights report the same text exactly when their intrinsic states are equal |
| Flyweight.FlyweightFactory.constructor | Patterns/Structural.playground/Pages/Flyweight.xcplaygroundpage/Contents.swift:23-24 | a new factory starts with an empty dictionary |
| Flyweight.FlyweightFactory.FlyweightFor | Patterns/Structural.playground/Pages/Flyweight.xcplaygroundpage/Contents.swift:26-34 | new dictionary and result are `Cache.GetOrCreate(old dictionary, key, result)`: a hit returns the stored instance and leaves the dictionary unchanged; a miss returns a fresh instance whose intrinsic state is the key, stored under the key; every stored flyweight's intrinsic state is its key |
| Flyweight.DistinctKeysDistinctFlyweights | Patterns/Structural.playground/Pages/Flyweight.xcplaygroundpage/Contents.swift:26-34 | in a factory, two keys hold the same instance exactly when they are the same key |
| Flyweight.LookupTwice | Patterns/Structural.playground/Pages/Flyweight.xcplaygroundpage/Contents.swift:27-33 | two lookups of one key return the identical instance, and the dictionary after both is the dictionary after the first |
| Cache.GetOrCreate | Patterns/Structural.playground/Pages/Flyweight.xcplaygroundpage/Contents.swift:26-34 | get-or-create on values: afterwards the key maps to the result; a hit returns the stored value and leaves the map unchanged; a miss stores the new value under the key; all other entries stay the same; the size grows by one exactly on a miss |
| Cache.GetOrCreateIdempotent | Patterns/Structural.playground/Pages/Flyweight.xcplaygroundpage/Contents.swift:27-33 | a second lookup of the same key returns the first result and leaves the map unchanged, whatever it would have built |
| Cache.GetOrCreateAllGrows | Patterns/Structural.playground/Pages/Flyweight.xcplaygroundpage/Contents.swift:24-34 | over any sequence of lookups, no entry is removed or replaced; the keys afterwards are the old keys plus those looked up; the size grows by at most one per lookup |
| Flyweight.StyleFor | Patterns/Structural.playground/Pages/Flyweight.xcplaygroundpage/Contents.swift:69-76 | the style is Arial/black exactly for `"A"`, Helvetica/blue exactly for `"B"`, and Times New Roman/red exactly for every other code |
| Flyweight.ConcreteCharacter.constructor | Patterns/Structural.playground/Pages/Flyweight.xcplaygroundpage/Contents.swift:50-53 | the new character carries the given font and colour |
| Flyweight.CharacterFactory.constructor | Patterns/Structural.playground/Pages/Flyweight.xcplaygroundpage/Contents.swift:60-61 | a new factory starts with an empty dictionary |
| Flyweight.CharacterFactory.CharacterFor | Patterns/Structural.playground/Pages/Flyweight.xcplaygroundpage/Contents.swift:63-79 | new dictionary and result are `Cache.GetOrCreate(old dictionary, code, result)`; a miss returns a fresh character; the result has the style `StyleFor(code)`; every stored character has its code's style and no instance is stored under two codes |
| Flyweight.LookupUnrecognisedPair | Patterns/Structural.playground/Pages/Flyweight.xcplaygroundpage/Contents.swift:74-77 | two different codes that are neither `"A"` nor `"B"` get two distinct instances, both with Times New Roman and red; afterwards the dictionary is the result of the two lookups in turn, with `code1` mapped to the first instance and `code2` to the second |
| Decorator.Operation | Patterns/Structural.playground/Pages/Decorator.xcplaygroundpage/Contents.swift:11-39 | `operation()` of a chain; its length is 17 (the length of "ConcreteComponent") plus 20 per A/B layer, because each A/B layer adds a 19-character opening and one `)` around the inner text, and a plain decorator adds nothing |
| Decorator.ContainsCoreName | Patterns/Structural.playground/Pages/Decorator.xcplaygroundpage/Contents.swift:11-39 | every chain's text holds "ConcreteComponent" after 19 characters per A/B layer, followed only by closing parentheses; its length is 17 plus 20 per A/B layer (a bare component gives exactly "ConcreteComponent") |
| Decorator.OperationNests | Patterns/Structural.playground/Pages/Decorator.xcplaygroundpage/Contents.swift:17-39 | a wrapped component's text appears unchanged inside the text of any chain around it, after 19 characters per A/B layer in between; each such layer adds 20 characters |
| Decorator.OperationCloses | Patterns/Structural.playground/Pages/Decorator.xcplaygroundpage/Contents.swift:29-39 | after the wrapped component's text, a chain's text holds only closing parentheses, one per A/B layer in between |
| Decorator.OperationBalanced | Patterns/Structural.playground/Pages/Decorator.xcplaygroundpage/Contents.swift:11-39 | a chain's text holds as many `(` as `)`, and both counts equal the number of A/B layers |
| Decorator.OperationStrip | Patterns/Structural.playground/Pages/Decorator.xcplaygroundpage/Contents.swift:17-27 | plain decorators are transparent: removing them from a chain leaves its text unchanged |
| Decorator.ParseOperation | Patterns/Structural.playground/Pages/Decorator.xcplaygroundpage/Contents.swift:11-39 | reading the text back gives the chain with its plain decorators removed: an A layer is "ConcreteDecoratorA(" + inner + ")", a B layer is "ConcreteDecoratorB(" + inner + ")" |
| Decorator.OperationParse | Patterns/Structural.playground/Pages/Decorator.xcplaygroundpage/Contents.swift:11-39 | any text the reader accepts is exactly the text of the chain it returns |
| Decorator.OperationInjective | Patterns/Structural.playground/Pages/Decorator.xcplaygroundpage/Contents.swift:11-39 | two chains give the same text exactly when they are equal once plain decorators are removed |
| Decorator.GetDescription | Patterns/Structural.playground/Pages/Decorator.xcplaygroundpage/Contents.swift:47-109 | `getDescription()` of a meal chain; it always starts with "Basic meal"; a plain decorator gives the wrapped description unchanged; a topping gives the wrapped description followed by ", with " and the topping; a side gives it followed by ", with a side of " and the side |
| Decorator.DescriptionNests | Patterns/Structural.playground/Pages/Decorator.xcplaygroundpage/Contents.swift:57-109 | a wrapped meal's description is a prefix of the description of any chain around it; the chain adds exactly the lengths of its layers' phrases (7 plus the topping, 17 plus the side, 0 for a plain decorator) |
| Decorator.DescriptionStartsWithBasic | Patterns/Structural.playground/Pages/Decorator.xcplaygroundpage/Contents.swift:47-109 | every meal description starts with "Basic meal"; its length is 10 plus what the layers add (a basic meal gives exactly "Basic meal") |

## Left out

- `getCost()` of the meals and the `cost` fields of the topping and side decorators. It is `Double` arithmetic, and the meal datatype has no price.
- `ConcreteCharacter.draw` only prints. The `Point` type it uses is not part of this model.
- The Command, State, Strategy, Template and Facade pages. They only print or forward to printing, so there is no state or result to specify.
- The demo statements, the prose comment blocks and the `UIKit` import.
- The `Flyweight`, `Character`, `Component` and `Meal` protocols. Each factory dictionary holds the one concrete class the page defines, and each chain is a datatype whose constructors are the page's conforming classes.
- Concurrency around the caches. The source is single-threaded.
- Swift compares `String` keys, and the `"A"`/`"B"` switch cases, by Unicode canonical equivalence. The model compares them as sequences of characters. Keys that are canonically equal but spelled with different code points are different keys here.
- Object lifetime and reference counting. The dictionaries keep their objects alive for the life of the factory, and the model has no deallocation.
