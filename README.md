# Java teaching examples, modelled in Dafny

This project models four small pieces of a set of Java teaching examples and proves what their documentation and tests promise:

- **`StringValidator`**: name validation against the pattern `^[\p{L}\s]+$` after `String.trim`, null-coalescing (`defaultIfNull`) and a length check with a limit (`calculerLongueur`). Its exception becomes an error result.
- **`CollectionUtils`**: in-place `swap` on a mutable list, written with the "`set` returns the old value" idiom. Also non-mutating `merge`s, `long` sums of numbers, and in-place `addNumber`.
- **`PizzaStatus`**: an enum with delivery times 5, 2 and 0. A static initializer loop builds the reverse map, and the total lookup `castIntToEnum` reads it.
- **`Animal`, `Dog`, `Cat`**: an immutable hierarchy with `makeSound`. `Cat` adds `compareTo` by name length and `equals` on the (type, name) pair. The two are inconsistent, and the model proves exactly how.

Files:

- `wrappers.dfy`: `Option` (Java's null) and `Result` (a thrown exception).
- `string_validator.dfy`
- `collection_utils.dfy`: models `java.util.List` as a class `List` with a `seq` field and `Get`/`Set`/`Add`.
- `int_to_enum.dfy`
- `animals.dfy`

Modelling choices:

- A Java `String` is a `seq<char>`, and a null `String` is `None`.
- Unicode General Category L (`\p{L}`) is not tabulated. Every validation member takes the letter classifier `isLetter: char -> bool` as a parameter. The test examples only assume that the classifier agrees with Unicode on ASCII, where the letters are exactly `A`-`Z` and `a`-`z`.
- `\s` is concrete: Java's default class `[ \t\n\x0B\f\r]`.
- `String.trim` strips the leading and trailing characters up to U+0020.
- `sum` is modelled as `LongStream.sum`: left-to-right addition in 64-bit two's complement. It is proved equal to the mathematical total wrapped into a `long`.
- The static map is built by the method `BuildTimeToDeliveryMapping`. Its loop invariant shows it yields `Mapping(Values())`, and `CastIntToEnum` looks up that same map.
- Two error paths follow the Java code:
  - `calculerLongueur` throws an `IllegalArgumentException` with a fixed message, and the model's failure carries that message.
  - `swap`'s out-of-range case is its `@requires`; the model keeps it as a precondition.

## Model

| member | source | states |
|---|---|---|
| `StringValidator.Trim` | src/main/java/StringValidator.java:14-17 | the trim is a slice of the input with only characters up to U+0020 outside it, and it neither starts nor ends with such a character |
| `StringValidator.TrimIsUnique` | src/main/java/StringValidator.java:14-17 | any slice with those two properties is the trim, so they define `String.trim` completely |
| `StringValidator.TrimIdempotent` | src/main/java/StringValidator.java:14-17 | trimming a trimmed string changes nothing |
| `StringValidator.TrimEmptyIffAllBlank` | src/main/java/StringValidator.java:14 | the trim is empty exactly when every character is at most U+0020 |
| `StringValidator.MatchesNamePattern` | src/main/java/StringValidator.java:10-18 | `matcher(..).matches()` for `^[\p{L}\s]+$`: a match consumes one or more characters, and its first and last are in the class |
| `StringValidator.MatchesNamePatternIffAll` | src/main/java/StringValidator.java:10-18 | a full match of `^[\p{L}\s]+$` holds iff the string is non-empty and every character is a letter or regex whitespace, so a partial match does not count |
| `StringValidator.EstNomValide` | src/main/java/StringValidator.java:13-19 | false for null; for a string, true iff its trim is non-empty and every character of the trim is a letter or regex whitespace |
| `StringValidator.EstNomValideIgnoresSurroundingBlanks` | src/main/java/StringValidator.java:14-17 | validating a string and validating its trim give the same verdict |
| `StringValidator.BlankNamesAreInvalid` | src/main/java/StringValidator.java:14-16 | the empty string and any string of characters up to U+0020 are invalid |
| `StringValidator.ForbiddenCharMakesInvalid` | src/main/java/StringValidator.java:10-18 | any character of the trim that is neither a letter nor regex whitespace makes the name invalid |
| `StringValidator.AsciiWordsAreValid` | src/main/java/StringValidator.java:9-10 | ASCII letters with inner spaces form a valid name, for any classifier that is right about ASCII |
| `StringValidator.AsciiSymbolMakesInvalid` | src/main/java/StringValidator.java:9-10 | an ASCII digit or symbol inside the name makes it invalid |
| `StringValidator.ValidNameExamples` | src/test/java/TestStringValidator.java:15-25 | "Jean Dupont" and "Marie Claire" are valid |
| `StringValidator.NullAndBlankExamplesAreInvalid` | src/main/java/StringValidator.java:14-16 | null, "" and a name of three spaces are invalid |
| `StringValidator.InvalidNameExamples` | src/test/java/TestStringValidator.java:27-37 | the rejected test inputs "Jean123" and "Jean@Dupont" are invalid, together with the null and blank names of the guard |
| `StringValidator.DefaultIfNull` | src/main/java/StringValidator.java:22-24 | the fallback for null, otherwise the input string unchanged |
| `StringValidator.CalculerLongueur` | src/main/java/StringValidator.java:27-36 | 0 for null whatever the limit (negative limits included); the exact length iff it does not exceed the limit; otherwise the exception with its message and no length; a success lies in 0..max(limit, 0) |
| `StringValidator.CalculerLongueurMeasuresDefault` | src/main/java/StringValidator.java:22-35 | a successful length is the length of `defaultIfNull(str, "")` |
| `StringValidator.LengthExamples` | src/test/java/TestStringValidator.java:57-77 | "Dix lettres" within 20 gives 11; "Trop long" over 5 fails; null gives 0 |
| `CollectionUtils.Swapped` | src/main/java/com/baeldung/generics/CollectionUtils.java:26-31 | exchanging two positions keeps the length and the multiset, puts each element in the other's place and leaves every other position unchanged |
| `CollectionUtils.SwapHelper` | src/main/java/com/baeldung/generics/CollectionUtils.java:36-41 | `set(src, set(des, get(src)))` on the list leaves exactly the swapped list, also when `src == des` |
| `CollectionUtils.Swap` | src/main/java/com/baeldung/generics/CollectionUtils.java:26-34 | for in-range indices, the new element at src is the old one at des and vice versa; the rest is as in `Swapped` |
| `CollectionUtils.SwappedTwiceIsIdentity` | src/main/java/com/baeldung/generics/CollectionUtils.java:39-41 | swapping the same pair twice restores the list |
| `CollectionUtils.SwappedSameIndexIsIdentity` | src/main/java/com/baeldung/generics/CollectionUtils.java:39-41 | swapping an index with itself is a no-op |
| `CollectionUtils.TwoSwapsReverseFive` | src/test/java/com/baeldung/generics/GenericsIT.java:56-64 | swapping (0, 4) and then (1, 3) reverses any five-element list |
| `CollectionUtils.MultipleSwaps` | src/test/java/com/baeldung/generics/GenericsIT.java:53-65 | the two swaps on the list "1".."5" leave "5", "4", "3", "2", "1" |
| `CollectionUtils.MergeTypeParameter` | src/main/java/com/baeldung/generics/CollectionUtils.java:43-52 | the result has length \|A\| + \|B\|, holds A's elements in order and then B's, and its multiset is the sum of both |
| `CollectionUtils.MergeWildcard` | src/main/java/com/baeldung/generics/CollectionUtils.java:54-60 | returns the same list as `mergeTypeParameter` |
| `CollectionUtils.MergeContains` | src/test/java/com/baeldung/generics/GenericsTest.java:61-72 | an element is in the merge iff it is in one of the two inputs |
| `CollectionUtils.WrapLong` | src/main/java/com/baeldung/generics/CollectionUtils.java:68-72 | the wrapped value is a `long` congruent to its argument modulo 2^64 |
| `CollectionUtils.SumFrom` | src/main/java/com/baeldung/generics/CollectionUtils.java:68-72 | the `LongStream.sum` reduction: adding the elements left to right in `long` arithmetic from an accumulator equals wrapping the accumulator plus the mathematical total once |
| `CollectionUtils.Sum` | src/main/java/com/baeldung/generics/CollectionUtils.java:62-72 | the mathematical total of the elements wrapped into a `long`; 0 for the empty list |
| `CollectionUtils.SumTypeParameter` | src/main/java/com/baeldung/generics/CollectionUtils.java:74-81 | returns the same value as `sum` |
| `CollectionUtils.SumWildcard` | src/main/java/com/baeldung/generics/CollectionUtils.java:83-90 | returns the same value as `sum` |
| `CollectionUtils.SumIsExactWithoutOverflow` | src/main/java/com/baeldung/generics/CollectionUtils.java:68-72 | when the total fits in a `long`, `sum` returns it exactly |
| `CollectionUtils.SumNonNegative` | src/main/java/com/baeldung/generics/CollectionUtils.java:62-72 | the result is non-negative when no element is negative and the total fits in a `long` |
| `CollectionUtils.SumDocumentedResultCounterexamples` | src/main/java/com/baeldung/generics/CollectionUtils.java:66 | `sum([-1])` is -1, and `sum([Long.MAX_VALUE, 1])` is `Long.MIN_VALUE` |
| `CollectionUtils.SumExample` | src/test/java/com/baeldung/generics/GenericsTest.java:74-81 | 1, 2, 3, 4 sum to 10 |
| `CollectionUtils.AddNumber` | src/main/java/com/baeldung/generics/CollectionUtils.java:92-100 | the list grows by exactly one, keeps its old elements as a prefix, ends with the number, and so contains it |
| `CollectionUtils.AddNumberToEmpty` | src/test/java/com/baeldung/generics/GenericsTest.java:83-91 | adding 42 to an empty list leaves the list \[42\] |
| `IntToEnum.TimeToDelivery` | src/main/java/com/baeldung/inttoenum/PizzaStatus.java:10-32 | every delivery time is non-negative |
| `IntToEnum.Values` | src/main/java/com/baeldung/inttoenum/PizzaStatus.java:12-15 | three constants, pairwise distinct |
| `IntToEnum.ValuesComplete` | src/main/java/com/baeldung/inttoenum/PizzaStatus.java:12-15 | every constant appears in `values()` |
| `IntToEnum.TimeToDeliveryInjective` | src/test/java/com/baeldung/inttoenum/IntToEnumIT.java:52-60 | two constants with the same delivery time are the same constant |
| `IntToEnum.DeliveryOrdering` | src/test/java/com/baeldung/inttoenum/IntToEnumIT.java:28-35 | DELIVERED < READY < ORDERED by delivery time |
| `IntToEnum.Mapping` | src/main/java/com/baeldung/inttoenum/PizzaStatus.java:34-43 | the map the static block leaves after putting a list of constants in order; every key maps to a constant carrying that delivery time |
| `IntToEnum.MappingSpec` | src/main/java/com/baeldung/inttoenum/PizzaStatus.java:34-43 | after putting a list of constants, the keys are exactly their delivery times, and each key maps to a constant of that list that carries it |
| `IntToEnum.ValuesMapping` | src/main/java/com/baeldung/inttoenum/PizzaStatus.java:36-43 | putting the constants of `values()` yields {5: ORDERED, 2: READY, 0: DELIVERED} |
| `IntToEnum.BuildTimeToDeliveryMapping` | src/main/java/com/baeldung/inttoenum/PizzaStatus.java:34-43 | the static loop builds the map of `values()`: key set {5, 2, 0}, and each key mapped to the constant carrying it |
| `IntToEnum.CastIntToEnum` | src/main/java/com/baeldung/inttoenum/PizzaStatus.java:45-53 | returns `Some(s)` iff `s`'s delivery time is the argument, and null for every int outside {0, 2, 5}, negatives included; total, with no precondition |
| `IntToEnum.CastIntToEnumRoundTrip` | src/test/java/com/baeldung/inttoenum/IntToEnumIT.java:15-26 | converting a constant's delivery time gives back that constant |
| `IntToEnum.CastIntToEnumInverse` | src/main/java/com/baeldung/inttoenum/PizzaStatus.java:51-53 | a time that converts is the delivery time of the constant it converts to |
| `IntToEnum.CastIntToEnumExamples` | src/test/java/com/baeldung/inttoenum/IntToEnumIT.java:37-50 | 5, 2 and 0 convert to ORDERED, READY and DELIVERED; -1, 1, 3 and 100 give null |
| `IntToEnum.CastIntToEnumInvalidExamples` | src/test/java/com/baeldung/inttoenum/IntToEnumTest.java:49-61 | 999 and -1 give null |
| `Animals.NewDog` | src/main/java/com/baeldung/generics/Dog.java:8-14 | a Dog whose `getType` and `getName` return the constructor's arguments |
| `Animals.NewCat` | src/main/java/com/baeldung/generics/Cat.java:12-18 | a Cat whose `getType` and `getName` return the constructor's arguments |
| `Animals.GettersRoundTrip` | src/main/java/com/baeldung/generics/Animal.java:13-39 | `getType` and `getName` return what the constructor stored: feeding them back into the animal's own constructor rebuilds the same animal |
| `Animals.MakeSound` | src/main/java/com/baeldung/generics/Animal.java:22-25 | non-empty for every animal: "Wuf" for a Dog, "Meow" for a Cat |
| `Animals.DispatchExample` | src/test/java/com/baeldung/generics/GenericsIT.java:26-36 | dispatch through Animal gives "Wuf" for Rex the Dog and "Meow" for Whiskers the Cat |
| `Animals.CompareTo` | src/main/java/com/baeldung/generics/Cat.java:28-37 | negative, zero or positive exactly as the receiver's name is shorter than, as long as, or longer than the argument's |
| `Animals.CompareToAntisymmetric` | src/main/java/com/baeldung/generics/Cat.java:35-37 | `compareTo(a, b) == -compareTo(b, a)`, and `compareTo(a, a) == 0` |
| `Animals.CompareToTransitive` | src/main/java/com/baeldung/generics/Cat.java:35-37 | a <= b and b <= c give a <= c under `compareTo` |
| `Animals.CatEquals` | src/main/java/com/baeldung/generics/Cat.java:49-60 | true iff the other object is a Cat with the same type and the same name, which is value equality of the two animals |
| `Animals.CatEqualsIsEquivalence` | src/main/java/com/baeldung/generics/Cat.java:54-60 | `equals` on cats is reflexive, symmetric and transitive |
| `Animals.EqualCatsCompareZero` | src/main/java/com/baeldung/generics/Cat.java:28-37 | equal cats compare as 0 |
| `Animals.CompareZeroDoesNotImplyEqual` | src/main/java/com/baeldung/generics/Cat.java:29 | "Tom" and "Bob" compare as 0 but are not equal: the inconsistency the comment warns about |
| `Animals.CatNeverEqualsDog` | src/main/java/com/baeldung/generics/Cat.java:57 | a Cat is never equal to a Dog |
| `Animals.CatExamples` | src/test/java/com/baeldung/generics/GenericsTest.java:30-49 | Tom < Garfield, Tom compares 0 with Tom, two Whiskers are equal, and Whiskers is not equal to Tom |
| `Animals.SortedIffNameLengthsNonDecreasing` | src/test/java/com/baeldung/generics/GenericsIT.java:38-51 | a list sorted by `compareTo` is exactly one whose name lengths never decrease |
| `Animals.SortedFromAdjacent` | src/test/java/com/baeldung/generics/GenericsIT.java:38-51 | adjacent pairs in order make the whole list sorted by `compareTo` |
| `Animals.SortingExample` | src/test/java/com/baeldung/generics/GenericsIT.java:38-51 | Bo, Cat, Alexander is sorted by `compareTo` and is a permutation of Alexander, Bo, Cat |
| `Animals.SortingExampleUnique` | src/test/java/com/baeldung/generics/GenericsIT.java:38-51 | every sorted permutation of Alexander, Bo, Cat is exactly Bo, Cat, Alexander, so sorting must return that order |

## Left out

- `CollectionUtils.print` and `StringValidator.main`: console output only.
- The benchmark classes and the `finally` examples: timing harnesses, and demonstrations of Java control flow and printing, with nothing to state about returned values.
- The Java regex engine: the character class is modelled per character. Membership of Unicode General Category L is a parameter, not a table.
- `String.length` counts UTF-16 code units. The model counts characters (Unicode scalar values), so a supplementary character counts 1 here and 2 in Java. The two agree on text within the Basic Multilingual Plane.
- `Number.longValue` on floating-point elements, which truncates 3.9 to 3: floating point is out of scope. Elements are integral `long` values.
- `merge`: the model works on immutable sequences, so "neither input is modified" holds by construction. The fresh `List` object the stream collects into is not modelled.
- `swap` with an out-of-range index: Java would throw `IndexOutOfBoundsException`. The model keeps the documented precondition instead of modelling that exception.
- `Collections.sort`, the library sort used by the sorting test: only its promise, a sorted permutation, is stated; for the test's list that promise fixes the result.
- `Cat.hashCode` and `Cat.toString`: a library hash and string formatting.
- `Cat.equals` on null or on objects that are not animals: the model's argument is always an Animal. Java returns false for null, as for a Dog.
- Reference identity: `o == this` in `equals` and Dog's inherited `Object.equals` compare references. Animals here are values, and identity implies equal fields, so `equals` is unaffected. Dog has no ordering and no equality of its own; `CompareTo` and `CatEquals` accept only cats.
- Generic variance (`? extends`, `? super`): a matter of the type system. Ordinary type parameters stand in for it, and `addNumber` appends to a list of integers.
- `compareTo` and `calculerLongueur` cannot overflow in Java, since lengths are below 2^31. The model uses unbounded integers for them.

## Findings

| source | as written | input that shows it | evidently intended | confidence | as-written member | corrected member |
|---|---|---|---|---|---|---|
| src/main/java/com/baeldung/generics/CollectionUtils.java:62-72 | `sum` documents `\result >= 0` and requires only `numbers != null` | `[-1]` gives -1; `[Long.MAX_VALUE, 1]` wraps to `Long.MIN_VALUE` | the result is non-negative when no element is negative and the total fits in a `long` | high (not executed) | `CollectionUtils.SumDocumentedResultCounterexamples` | `CollectionUtils.SumNonNegative` |
