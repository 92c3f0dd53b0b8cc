/**
 * ImageMetaData: the file name of an image and, optionally, its details (folder name,
 * width, height, depth). Equality and hash code look at the file name and the three
 * dimensions only; the folder name takes no part in either.
 */
module ImageMetaDataModel {
  import opened Wrappers

  /** A Java int. */
  newtype int32 = x: int | -0x8000_0000 <= x < 0x8000_0000

  /**
   * A Java double, held as Double.doubleToLongBits of its value (every NaN has the one
   * canonical pattern). Double.compare(a, b) == 0 exactly when the patterns are equal.
   */
  datatype Double = Double(bits: bv64)

  /** 0.0 */
  const ZeroDouble := Double(0)

  /** ImageMetaDataDetails. */
  datatype Details = Details(folderName: string, imageWidth: Double, imageHeight: Double, imageDepth: int32)

  /** The exception a getter throws when the object has no details. */
  datatype MetaDataError = NullPointerException

  /** ImageMetaData: details is None after the file-name-only constructor. */
  datatype ImageMetaData = ImageMetaData(fileName: string, details: Option<Details>)
  {
    /** hasDetails */
    predicate HasDetails()
    {
      details.Some?
    }

    /** getImageWidth */
    function GetImageWidth(): (r: Result<Double, MetaDataError>)
      ensures r.Success? <==> HasDetails()
      ensures r.Success? ==> r.value == details.value.imageWidth
    {
      if details.None? then Failure(NullPointerException) else Success(details.value.imageWidth)
    }

    /** getImageHeight */
    function GetImageHeight(): (r: Result<Double, MetaDataError>)
      ensures r.Success? <==> HasDetails()
      ensures r.Success? ==> r.value == details.value.imageHeight
    {
      if details.None? then Failure(NullPointerException) else Success(details.value.imageHeight)
    }

    /** getImageDepth */
    function GetImageDepth(): (r: Result<int32, MetaDataError>)
      ensures r.Success? <==> HasDetails()
      ensures r.Success? ==> r.value == details.value.imageDepth
    {
      if details.None? then Failure(NullPointerException) else Success(details.value.imageDepth)
    }

    /** getFolderName */
    function GetFolderName(): (r: Result<string, MetaDataError>)
      ensures r.Success? <==> HasDetails()
      ensures r.Success? ==> r.value == details.value.folderName
    {
      if details.None? then Failure(NullPointerException) else Success(details.value.folderName)
    }

    /** getFileName */
    function GetFileName(): string
    {
      fileName
    }
  }

  /** new ImageMetaData(fileName, folderName, imageWidth, imageHeight, imageDepth) */
  function WithDetails(fileName: string, folderName: string, width: Double, height: Double, depth: int32): (m: ImageMetaData)
    ensures m.HasDetails() && m.GetFileName() == fileName
    ensures m.GetFolderName() == Success(folderName)
    ensures m.GetImageWidth() == Success(width) && m.GetImageHeight() == Success(height)
    ensures m.GetImageDepth() == Success(depth)
  {
    ImageMetaData(fileName, Some(Details(folderName, width, height, depth)))
  }

  /** new ImageMetaData(fileName) */
  function WithFileName(fileName: string): (m: ImageMetaData)
    ensures !m.HasDetails() && m.GetFileName() == fileName
    ensures m.GetFolderName().Failure? && m.GetImageWidth().Failure?
    ensures m.GetImageHeight().Failure? && m.GetImageDepth().Failure?
  {
    ImageMetaData(fileName, None)
  }

  /** What reading an image header can come to: its dimensions, an IOException, or no ImageReader for the format. */
  datatype ReadOutcome = Read(width: Double, height: Double, depth: int32) | IoError | NoReader

  /** ImageDimensions: width, height and depth. */
  datatype Dimensions = Dimensions(width: Double, height: Double, depth: int32)

  /** ImageDimensions.zeroDimensions() */
  const ZeroDimensions := Dimensions(ZeroDouble, ZeroDouble, 0)

  /** readImageDimensionsFromFile: the dimensions the reader gives, and the zero dimensions on either failure. */
  function ReadImageDimensions(outcome: ReadOutcome): (d: Dimensions)
    ensures outcome.Read? ==> d == Dimensions(outcome.width, outcome.height, outcome.depth)
    ensures !outcome.Read? ==> d == ZeroDimensions
  {
    match outcome
    case Read(w, h, depth) => Dimensions(w, h, depth)
    case IoError => ZeroDimensions
    case NoReader => ZeroDimensions
  }

  /**
   * fromFile: the file's name, the name of its parent directory and the dimensions read
   * from it. A file without a parent directory fails with the NullPointerException of
   * getParent().toFile(); a file that cannot be read still gives metadata, with zero dimensions.
   */
  function FromFile(fileName: string, parentFolder: Option<string>, outcome: ReadOutcome): (r: Result<ImageMetaData, MetaDataError>)
    ensures r.Success? <==> parentFolder.Some?
    ensures r.Success? ==> r.value.HasDetails() && r.value.GetFileName() == fileName
    ensures r.Success? ==> r.value.GetFolderName() == Success(parentFolder.value)
    ensures r.Success? && outcome.Read? ==>
              && r.value.GetImageWidth() == Success(outcome.width)
              && r.value.GetImageHeight() == Success(outcome.height)
              && r.value.GetImageDepth() == Success(outcome.depth)
    ensures r.Success? && !outcome.Read? ==>
              && r.value.GetImageWidth() == Success(ZeroDouble)
              && r.value.GetImageHeight() == Success(ZeroDouble)
              && r.value.GetImageDepth() == Success(0)
  {
    var dimensions := ReadImageDimensions(outcome);
    if parentFolder.None? then Failure(NullPointerException)
    else Success(WithDetails(fileName, parentFolder.value, dimensions.width, dimensions.height, dimensions.depth))
  }

  /** ImageMetaDataDetails.equals: the same width, height and depth; the folder name is not compared. */
  predicate DetailsEqual(a: Details, b: Details)
  {
    a.imageWidth == b.imageWidth && a.imageHeight == b.imageHeight && a.imageDepth == b.imageDepth
  }

  /** Objects.equals on the details: both absent, or both present and equal. */
  predicate OptionalDetailsEqual(a: Option<Details>, b: Option<Details>)
  {
    match a
    case None => b.None?
    case Some(x) => b.Some? && DetailsEqual(x, b.value)
  }

  /**
   * ImageMetaData.equals(obj), where None stands for null or any object that is not an
   * ImageMetaData: equal file names and equal details.
   */
  function Equals(m: ImageMetaData, obj: Option<ImageMetaData>): (r: bool)
    ensures r <==> && obj.Some?
                   && m.fileName == obj.value.fileName
                   && m.HasDetails() == obj.value.HasDetails()
                   && (m.HasDetails() ==> && m.GetImageWidth() == obj.value.GetImageWidth()
                                          && m.GetImageHeight() == obj.value.GetImageHeight()
                                          && m.GetImageDepth() == obj.value.GetImageDepth())
  {
    obj.Some? && m.fileName == obj.value.fileName && OptionalDetailsEqual(m.details, obj.value.details)
  }

  /** 2^32: Java int arithmetic is exact arithmetic modulo this number. */
  const Modulus := 0x1_0000_0000

  /** a and b stand for the same Java int. */
  predicate Congruent(a: int, b: int)
  {
    (a - b) % Modulus == 0
  }

  lemma CongruentSymmetric(a: int, b: int)
    requires Congruent(a, b)
    ensures Congruent(b, a)
  {
    var k := (a - b) / Modulus;
    assert a - b == Modulus * k;
    assert b - a == Modulus * -k;
  }

  lemma CongruentTransitive(a: int, b: int, c: int)
    requires Congruent(a, b) && Congruent(b, c)
    ensures Congruent(a, c)
  {
    var k, l := (a - b) / Modulus, (b - c) / Modulus;
    assert a - b == Modulus * k && b - c == Modulus * l;
    assert a - c == Modulus * (k + l);
  }

  /** One step of the 31-multiplier hash keeps congruence. */
  lemma CongruentStep(a: int, b: int, c: int)
    requires Congruent(a, b)
    ensures Congruent(31 * a + c, 31 * b + c)
  {
    var k := (a - b) / Modulus;
    assert a - b == Modulus * k;
    assert (31 * a + c) - (31 * b + c) == 31 * (a - b) == Modulus * (31 * k);
  }

  /** A Java int expression's value: the mathematical value wrapped into 32 bits, two's complement. */
  function Wrap(x: int): (r: int32)
    ensures Congruent(r as int, x)
  {
    var low := x % Modulus;
    var r := if low < 0x8000_0000 then low as int32 else (low - Modulus) as int32;
    assert Congruent(x, r as int) by {
      assert x - r as int == Modulus * (x / Modulus) || x - r as int == Modulus * (x / Modulus + 1);
    }
    CongruentSymmetric(x, r as int);
    r
  }

  /** 31 to the n-th power. */
  function Pow31(n: nat): (p: int)
    ensures p >= 1
  {
    if n == 0 then 1 else 31 * Pow31(n - 1)
  }

  /** xs[0] * 31^(n-1) + xs[1] * 31^(n-2) + ... + xs[n-1], computed exactly. */
  function Polynomial(xs: seq<int>): int
  {
    if xs == [] then 0 else xs[0] * Pow31(|xs| - 1) + Polynomial(xs[1..])
  }

  /** Appending an element multiplies the polynomial by 31 and adds the element. */
  lemma {:induction false} PolynomialSnoc(xs: seq<int>, x: int)
    ensures Polynomial(xs + [x]) == 31 * Polynomial(xs) + x
  {
    if xs == [] {
      assert Polynomial([x]) == x * Pow31(0) + Polynomial([]);
    } else {
      var ys := xs + [x];
      assert ys[1..] == xs[1..] + [x];
      PolynomialSnoc(xs[1..], x);
      assert xs[0] * Pow31(|xs|) == 31 * (xs[0] * Pow31(|xs| - 1));
    }
  }

  /** The character codes of a string. */
  function Codes(s: string): (cs: seq<int>)
    ensures |cs| == |s| && forall i :: 0 <= i < |s| ==> cs[i] == s[i] as int
  {
    seq(|s|, i requires 0 <= i < |s| => s[i] as int)
  }

  /** The values of a sequence of ints. */
  function Ints(hs: seq<int32>): (xs: seq<int>)
    ensures |xs| == |hs| && forall i :: 0 <= i < |hs| ==> xs[i] == hs[i] as int
  {
    seq(|hs|, i requires 0 <= i < |hs| => hs[i] as int)
  }

  /**
   * String.hashCode: h = 31 * h + c over the characters, in int arithmetic, which is
   * s[0] * 31^(n-1) + s[1] * 31^(n-2) + ... + s[n-1] wrapped into an int.
   */
  function StringHash(s: string): (r: int32)
    ensures Congruent(r as int, Polynomial(Codes(s)))
  {
    if s == [] then 0
    else
      var init, last := s[..|s| - 1], s[|s| - 1] as int;
      var h := StringHash(init);
      var r := Wrap(31 * h as int + last);
      CongruentStep(h as int, Polynomial(Codes(init)), last);
      CongruentTransitive(r as int, 31 * h as int + last, 31 * Polynomial(Codes(init)) + last);
      assert Codes(s) == Codes(init) + [last];
      PolynomialSnoc(Codes(init), last);
      r
  }

  /** The low 32 bits of a double's bit pattern. */
  function LowHalf(d: Double): bv32
  {
    (d.bits & 0xFFFF_FFFF) as bv32
  }

  /** The high 32 bits of a double's bit pattern. */
  function HighHalf(d: Double): bv32
  {
    (d.bits >> 32) as bv32
  }

  /** Double.hashCode: the two halves of the bit pattern exclusive-or'ed, as an int. */
  function DoubleHash(d: Double): (r: int32)
    ensures Congruent(r as int, (HighHalf(d) ^ LowHalf(d)) as int)
  {
    var folded := (d.bits ^ (d.bits >> 32)) & 0xFFFF_FFFF;
    FoldedHalves(d);
    Wrap(folded as int)
  }

  lemma FoldedHalves(d: Double)
    ensures ((d.bits ^ (d.bits >> 32)) & 0xFFFF_FFFF) as int == (HighHalf(d) ^ LowHalf(d)) as int
  {
    var halves := HighHalf(d) ^ LowHalf(d);
    FoldedIsHalves(d);
    WidenKeepsValue(halves);
  }

  lemma FoldedIsHalves(d: Double)
    ensures (d.bits ^ (d.bits >> 32)) & 0xFFFF_FFFF == (HighHalf(d) ^ LowHalf(d)) as bv64
  {
  }

  lemma WidenKeepsValue(x: bv32)
    ensures (x as bv64) as int == x as int
  {
  }

  /**
   * Arrays.hashCode (behind Objects.hash): r = 31 * r + h over the elements' hashes, starting
   * from 1, which is 31^n + h[0] * 31^(n-1) + ... + h[n-1] wrapped into an int.
   */
  function HashAll(hashes: seq<int32>): (r: int32)
    ensures Congruent(r as int, Pow31(|hashes|) + Polynomial(Ints(hashes)))
  {
    if hashes == [] then 1
    else
      var init, last := hashes[..|hashes| - 1], hashes[|hashes| - 1] as int;
      var h := HashAll(init);
      var exact := Pow31(|init|) + Polynomial(Ints(init));
      var r := Wrap(31 * h as int + last);
      CongruentStep(h as int, exact, last);
      CongruentTransitive(r as int, 31 * h as int + last, 31 * exact + last);
      assert Ints(hashes) == Ints(init) + [last];
      PolynomialSnoc(Ints(init), last);
      r
  }

  /** Objects.hash of three ints: 31^3 + 31^2 * a + 31 * b + c, wrapped. */
  lemma HashOfThree(a: int32, b: int32, c: int32)
    ensures Congruent(HashAll([a, b, c]) as int, 29791 + 961 * a as int + 31 * b as int + c as int)
  {
    var xs := Ints([a, b, c]);
    assert xs == [a as int, b as int, c as int];
    assert xs[1..] == [b as int, c as int] && xs[2..] == [c as int];
    assert Polynomial(xs) == 961 * a as int + 31 * b as int + c as int by {
      assert Polynomial([c as int]) == c as int * Pow31(0) + Polynomial([]);
      assert Pow31(1) == 31 && Pow31(2) == 961;
    }
    assert Pow31(3) == 29791;
  }

  /** Objects.hash of two ints: 31^2 + 31 * a + b, wrapped. */
  lemma HashOfTwo(a: int32, b: int32)
    ensures Congruent(HashAll([a, b]) as int, 961 + 31 * a as int + b as int)
  {
    var xs := Ints([a, b]);
    assert xs == [a as int, b as int];
    assert xs[1..] == [b as int];
    assert Polynomial(xs) == 31 * a as int + b as int by {
      assert Polynomial([b as int]) == b as int * Pow31(0) + Polynomial([]);
      assert Pow31(1) == 31;
    }
    assert Pow31(2) == 961;
  }

  /** ImageMetaDataDetails.hashCode: Objects.hash(imageWidth, imageHeight, imageDepth). */
  function DetailsHash(d: Details): (r: int32)
    ensures Congruent(r as int, 29791 + 961 * DoubleHash(d.imageWidth) as int + 31 * DoubleHash(d.imageHeight) as int + d.imageDepth as int)
  {
    HashOfThree(DoubleHash(d.imageWidth), DoubleHash(d.imageHeight), d.imageDepth);
    HashAll([DoubleHash(d.imageWidth), DoubleHash(d.imageHeight), d.imageDepth])
  }

  /** ImageMetaData.hashCode: Objects.hash(fileName, details), a missing details hashing to 0. */
  function HashCode(m: ImageMetaData): (r: int32)
    ensures m.details.None? ==> Congruent(r as int, 961 + 31 * StringHash(m.fileName) as int)
    ensures m.details.Some? ==> Congruent(r as int, 961 + 31 * StringHash(m.fileName) as int + DetailsHash(m.details.value) as int)
  {
    var fileNameHash := StringHash(m.fileName);
    var detailsHash := if m.details.None? then 0 else DetailsHash(m.details.value);
    HashOfTwo(fileNameHash, detailsHash);
    HashAll([fileNameHash, detailsHash])
  }

  /** hasDetails is true exactly when the details getters succeed: all of them or none. */
  lemma HasDetailsExactlyWhenGettersSucceed(m: ImageMetaData)
    ensures m.HasDetails() <==> m.GetFolderName().Success?
    ensures m.HasDetails() <==> m.GetImageWidth().Success?
    ensures m.HasDetails() <==> m.GetImageHeight().Success?
    ensures m.HasDetails() <==> m.GetImageDepth().Success?
  {
  }

  /** Between objects without details, equality is decided by the file name getFileName returns. */
  lemma FileNameDecidesEqualityWithoutDetails(a: ImageMetaData, b: ImageMetaData)
    requires !a.HasDetails() && !b.HasDetails()
    ensures Equals(a, Some(b)) <==> a.GetFileName() == b.GetFileName()
  {
  }

  /** The hash code depends on nothing the equality ignores: equal objects have equal hash codes. */
  lemma EqualsConsistentWithHashCode(a: ImageMetaData, b: ImageMetaData)
    requires Equals(a, Some(b))
    ensures HashCode(a) == HashCode(b)
  {
    if a.details.Some? {
      assert DetailsHash(a.details.value) == DetailsHash(b.details.value);
    }
  }

  /** Two objects that differ only in the folder name are equal, with equal hash codes. */
  lemma FolderNameIsIgnored(fileName: string, folder1: string, folder2: string, width: Double, height: Double, depth: int32)
    ensures Equals(WithDetails(fileName, folder1, width, height, depth), Some(WithDetails(fileName, folder2, width, height, depth)))
    ensures HashCode(WithDetails(fileName, folder1, width, height, depth)) == HashCode(WithDetails(fileName, folder2, width, height, depth))
  {
    EqualsConsistentWithHashCode(WithDetails(fileName, folder1, width, height, depth), WithDetails(fileName, folder2, width, height, depth));
  }

  /** equals is reflexive, symmetric and transitive, and no object equals null. */
  lemma EqualsIsEquivalence(a: ImageMetaData, b: ImageMetaData, c: ImageMetaData)
    ensures Equals(a, Some(a))
    ensures Equals(a, Some(b)) ==> Equals(b, Some(a))
    ensures Equals(a, Some(b)) && Equals(b, Some(c)) ==> Equals(a, Some(c))
    ensures !Equals(a, None)
  {
  }

  /** An object without details never equals one with details, whatever their file names. */
  lemma DetailsPresenceMatters(fileName: string, folderName: string, width: Double, height: Double, depth: int32)
    ensures !Equals(WithFileName(fileName), Some(WithDetails(fileName, folderName, width, height, depth)))
    ensures !Equals(WithDetails(fileName, folderName, width, height, depth), Some(WithFileName(fileName)))
  {
  }
}
