/**
 * The animal hierarchy: Animal with its two concrete kinds Dog and Cat. Fields
 * are final, so an animal is an immutable value; Cat adds an ordering by name
 * length and an equality on the (type, name) pair.
 */
module Animals {

  /** An animal of either kind: its type (say "Feline") and its name, both non-null. */
  datatype Animal =
    | Dog(animalType: string, name: string)
    | Cat(animalType: string, name: string)

  /** The animals that are cats: the receivers and arguments of compareTo. */
  type CatAnimal = a: Animal | a.Cat? witness Cat("", "")

  /** The Dog constructor: stores type and name as given. */
  function NewDog(animalType: string, name: string): (d: Animal)
    ensures d.Dog?
    ensures GetType(d) == animalType && GetName(d) == name
  {
    Dog(animalType, name)
  }

  /** The Cat constructor: stores type and name as given. */
  function NewCat(animalType: string, name: string): (c: CatAnimal)
    ensures GetType(c) == animalType && GetName(c) == name
  {
    Cat(animalType, name)
  }

  /** getType: the stored type. */
  function GetType(a: Animal): (t: string)
  {
    a.animalType
  }

  /** getName: the stored name. */
  function GetName(a: Animal): (n: string)
  {
    a.name
  }

  /** The getters lose nothing: an animal is rebuilt by its kind's constructor from them. */
  lemma GettersRoundTrip(a: Animal)
    ensures a == (if a.Dog? then NewDog(GetType(a), GetName(a)) else NewCat(GetType(a), GetName(a)))
  {
  }

  /** makeSound, dispatched on the kind of animal. */
  function MakeSound(a: Animal): (sound: string)
    ensures a.Dog? ==> sound == "Wuf"
    ensures a.Cat? ==> sound == "Meow"
    ensures |sound| > 0
  {
    match a
    case Dog(_, _) => "Wuf"
    case Cat(_, _) => "Meow"
  }

  /** The polymorphism test: a Dog and a Cat in one list of animals make their own sounds. */
  lemma DispatchExample()
    ensures MakeSound(NewDog("Canine", "Rex")) == "Wuf"
    ensures MakeSound(NewCat("Feline", "Whiskers")) == "Meow"
  {
  }

  /** Cat.compareTo: the difference of the name lengths. Its sign orders cats by name length. */
  function CompareTo(self: CatAnimal, cat: CatAnimal): (c: int)
    ensures c < 0 <==> |GetName(self)| < |GetName(cat)|
    ensures c == 0 <==> |GetName(self)| == |GetName(cat)|
    ensures c > 0 <==> |GetName(self)| > |GetName(cat)|
  {
    |GetName(self)| - |GetName(cat)|
  }

  /** compareTo is antisymmetric, and zero on a cat and itself. */
  lemma CompareToAntisymmetric(a: CatAnimal, b: CatAnimal)
    ensures CompareTo(a, b) == -CompareTo(b, a)
    ensures CompareTo(a, a) == 0
  {
  }

  /** compareTo is transitive as an order: a <= b and b <= c give a <= c. */
  lemma CompareToTransitive(a: CatAnimal, b: CatAnimal, c: CatAnimal)
    requires CompareTo(a, b) <= 0 && CompareTo(b, c) <= 0
    ensures CompareTo(a, c) <= 0
  {
  }

  /**
   * Cat.equals: true for the same object, false for anything that is not a Cat,
   * otherwise whether type and name are both equal.
   */
  function CatEquals(self: CatAnimal, o: Animal): (eq: bool)
    ensures eq <==> o.Cat? && GetType(o) == GetType(self) && GetName(o) == GetName(self)
    ensures eq <==> o == self
  {
    if o == self then true
    else if !o.Cat? then false
    else self.animalType == o.animalType && self.name == o.name
  }

  /** equals is reflexive and symmetric on cats, and transitive. */
  lemma CatEqualsIsEquivalence(a: CatAnimal, b: CatAnimal, c: CatAnimal)
    ensures CatEquals(a, a)
    ensures CatEquals(a, b) == CatEquals(b, a)
    ensures CatEquals(a, b) && CatEquals(b, c) ==> CatEquals(a, c)
  {
  }

  /** Equal cats compare as 0. */
  lemma EqualCatsCompareZero(a: CatAnimal, b: CatAnimal)
    requires CatEquals(a, b)
    ensures CompareTo(a, b) == 0
  {
  }

  /** The converse fails: "Tom" and "Bob" compare as 0 yet are not equal. */
  lemma CompareZeroDoesNotImplyEqual()
    ensures CompareTo(NewCat("Feline", "Tom"), NewCat("Feline", "Bob")) == 0
    ensures !CatEquals(NewCat("Feline", "Tom"), NewCat("Feline", "Bob"))
  {
  }

  /** A Cat never equals a Dog, whatever their fields. */
  lemma CatNeverEqualsDog(c: CatAnimal, animalType: string, name: string)
    ensures !CatEquals(c, NewDog(animalType, name))
  {
  }

  /** The unit tests' comparisons and equalities. */
  lemma CatExamples()
    ensures CompareTo(NewCat("Feline", "Tom"), NewCat("Feline", "Garfield")) < 0
    ensures CompareTo(NewCat("Feline", "Tom"), NewCat("Feline", "Tom")) == 0
    ensures CatEquals(NewCat("Feline", "Whiskers"), NewCat("Feline", "Whiskers"))
    ensures !CatEquals(NewCat("Feline", "Whiskers"), NewCat("Feline", "Tom"))
  {
  }

  /** What Collections.sort promises for cats: every pair in order under compareTo. */
  predicate SortedByCompareTo(cats: seq<CatAnimal>) {
    forall i, j :: 0 <= i < j < |cats| ==> CompareTo(cats[i], cats[j]) <= 0
  }

  /** A list sorted by compareTo is exactly one whose name lengths never decrease. */
  lemma SortedIffNameLengthsNonDecreasing(cats: seq<CatAnimal>)
    ensures SortedByCompareTo(cats)
        <==> forall i, j :: 0 <= i < j < |cats| ==> |GetName(cats[i])| <= |GetName(cats[j])|
  {
  }

  /** Adjacent pairs in order suffice for the whole list to be sorted. */
  lemma {:induction false} SortedFromAdjacent(cats: seq<CatAnimal>)
    requires forall i :: 0 <= i < |cats| - 1 ==> CompareTo(cats[i], cats[i + 1]) <= 0
    ensures SortedByCompareTo(cats)
    decreases |cats|
  {
    if |cats| > 1 {
      var rest := cats[1..];
      assert forall i :: 0 <= i < |rest| - 1 ==> CompareTo(rest[i], rest[i + 1]) <= 0 by {
        forall i | 0 <= i < |rest| - 1 ensures CompareTo(rest[i], rest[i + 1]) <= 0 {
          assert rest[i] == cats[i + 1] && rest[i + 1] == cats[i + 2];
        }
      }
      SortedFromAdjacent(rest);
      forall i, j | 0 <= i < j < |cats| ensures CompareTo(cats[i], cats[j]) <= 0 {
        if i == 0 {
          if j > 1 {
            assert cats[j] == rest[j - 1] && cats[1] == rest[0];
            CompareToTransitive(cats[0], cats[1], cats[j]);
          }
        } else {
          assert cats[i] == rest[i - 1] && cats[j] == rest[j - 1];
        }
      }
    }
  }

  /** The sorting test: Bo, Cat, Alexander is sorted and a permutation of Alexander, Bo, Cat. */
  lemma SortingExample()
    ensures var before := [NewCat("Feline", "Alexander"), NewCat("Feline", "Bo"), NewCat("Feline", "Cat")];
            var after := [NewCat("Feline", "Bo"), NewCat("Feline", "Cat"), NewCat("Feline", "Alexander")];
            SortedByCompareTo(after) && multiset(after) == multiset(before)
  {
    var after := [NewCat("Feline", "Bo"), NewCat("Feline", "Cat"), NewCat("Feline", "Alexander")];
    SortedFromAdjacent(after);
  }

  /** Bo, Cat, Alexander is the only sorted permutation of Alexander, Bo, Cat: what sorting must return. */
  lemma SortingExampleUnique(p: seq<CatAnimal>)
    requires multiset(p) == multiset([NewCat("Feline", "Alexander"), NewCat("Feline", "Bo"), NewCat("Feline", "Cat")])
    requires SortedByCompareTo(p)
    ensures p == [NewCat("Feline", "Bo"), NewCat("Feline", "Cat"), NewCat("Feline", "Alexander")]
  {
  }
}
