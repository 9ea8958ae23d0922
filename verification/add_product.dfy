/** The product form: the check applied to each batch of chosen images,
    removing one image, and the checks made before submitting. */
module AddProduct {
  import opened Basics
  import opened Text

  datatype ImageFile = ImageFile(name: string, mimeType: string, size: int)

  /** Five megabytes per file. */
  const MaxImageBytes: int := 5 * 1024 * 1024

  const ImageTypes: seq<string> := ["image/jpeg", "image/jpg", "image/png", "image/gif", "image/webp"]

  predicate Oversized(f: ImageFile) { f.size > MaxImageBytes }
  predicate IsImageType(f: ImageFile) { f.mimeType in ImageTypes }

  /** A file the form keeps: small enough and of an image type. */
  predicate Acceptable(f: ImageFile) { !Oversized(f) && IsImageType(f) }

  predicate AllAcceptable(images: seq<ImageFile>)
  {
    forall i :: 0 <= i < |images| ==> Acceptable(images[i])
  }

  datatype Alert = NoAlert | TooLargeAlert | NotImageAlert

  datatype Chosen = Chosen(images: seq<ImageFile>, alert: Alert)

  /** `handleImageUpload`. No file list leaves the form alone. Otherwise the
      whole batch is refused if any file is too large, and only then if any
      file is not an image; a batch passing both is appended. */
  function ChooseImages(images: seq<ImageFile>, batch: Option<seq<ImageFile>>): (r: Chosen)
    ensures batch.None? ==> r == Chosen(images, NoAlert)
    ensures batch.Some? ==>
      (r.alert == TooLargeAlert <==> exists i :: 0 <= i < |batch.value| && Oversized(batch.value[i]))
    ensures batch.Some? && r.alert == NotImageAlert ==> forall i :: 0 <= i < |batch.value| ==> !Oversized(batch.value[i])
    ensures batch.Some? && r.alert == NoAlert ==> AllAcceptable(batch.value)
    ensures r.alert == NoAlert ==> r.images == images + (if batch.Some? then batch.value else [])
    ensures r.alert != NoAlert ==> r.images == images
  {
    if batch.None? then Chosen(images, NoAlert)
    else
      var files := batch.value;
      if |Filter(files, Oversized)| > 0 then
        assert Filter(files, Oversized)[0] in files;
        Chosen(images, TooLargeAlert)
      else if |Filter(files, (f: ImageFile) => !IsImageType(f))| > 0 then
        Chosen(images, NotImageAlert)
      else
        assert forall i :: 0 <= i < |files| ==> files[i] in files;
        Chosen(images + files, NoAlert)
  }

  /** A batch is taken whole or not at all, and what the form holds stays
      acceptable. */
  lemma ChosenStayAcceptable(images: seq<ImageFile>, batch: Option<seq<ImageFile>>)
    requires AllAcceptable(images)
    ensures AllAcceptable(ChooseImages(images, batch).images)
    ensures var r := ChooseImages(images, batch).images;
            r == images || (batch.Some? && r == images + batch.value)
  {
    var r := ChooseImages(images, batch);
    if batch.Some? && r.alert == NoAlert {
      forall i | 0 <= i < |r.images| ensures Acceptable(r.images[i]) {
        if i >= |images| {
          assert r.images[i] == batch.value[i - |images|];
        }
      }
    }
  }

  /** The size check comes first: a batch with both an oversized file and a
      file of another type is refused for its size. */
  lemma SizeCheckedFirst(images: seq<ImageFile>, big: ImageFile, other: ImageFile)
    requires Oversized(big) && !IsImageType(other)
    ensures ChooseImages(images, Some([other, big])).alert == TooLargeAlert
  {
    assert [other, big][1] == big;
  }

  /** `images.filter((_, i) => i !== index)`. */
  function RemoveAt(images: seq<ImageFile>, index: int): (r: seq<ImageFile>)
    ensures |r| == (if 0 <= index < |images| then |images| - 1 else |images|)
    ensures forall x :: x in r ==> x in images
    decreases |images|
  {
    if |images| == 0 then []
    else (if index == 0 then [] else [images[0]]) + RemoveAt(images[1..], index - 1)
  }

  /** An index outside the list removes nothing. */
  lemma {:induction false} RemoveAtOutside(images: seq<ImageFile>, index: int)
    requires !(0 <= index < |images|)
    ensures RemoveAt(images, index) == images
    decreases |images|
  {
    if |images| > 0 {
      RemoveAtOutside(images[1..], index - 1);
      assert images == [images[0]] + images[1..];
    }
  }

  /** An index inside the list cuts out exactly that image. */
  lemma {:induction false} RemoveAtInside(images: seq<ImageFile>, index: int)
    requires 0 <= index < |images|
    ensures RemoveAt(images, index) == images[..index] + images[index + 1..]
    decreases |images|
  {
    var t := images[1..];
    if index == 0 {
      RemoveAtOutside(t, -1);
      assert RemoveAt(images, 0) == [] + t;
    } else {
      var head := [images[0]];
      RemoveAtInside(t, index - 1);
      assert RemoveAt(images, index) == head + (t[..index - 1] + t[index - 1 + 1..]);
      assert head + t[..index - 1] == images[..index];
      assert t[index..] == images[index + 1..];
    }
  }

  /** Removing cuts out exactly the image at the index; an index outside the
      list changes nothing. */
  lemma RemoveAtSplices(images: seq<ImageFile>, index: int)
    ensures 0 <= index < |images| ==> RemoveAt(images, index) == images[..index] + images[index + 1..]
    ensures !(0 <= index < |images|) ==> RemoveAt(images, index) == images
  {
    if 0 <= index < |images| {
      RemoveAtInside(images, index);
    } else {
      RemoveAtOutside(images, index);
    }
  }

  // ---------------------------------------------------------------------
  // submitting

  datatype Submission = MissingField | BadPrice | Submitted(price: int)

  /** `handleSubmit`: every field must be non-empty, then the price must
      read as a number no less than zero. */
  function Submit(title: string, price: string, category: string, description: string): (r: Submission)
    ensures r == MissingField <==> title == "" || price == "" || category == "" || description == ""
    ensures r.Submitted? ==> ParseInt(price) == Some(r.price) && r.price >= 0
    ensures r == BadPrice <==> r != MissingField && (ParseInt(price).None? || ParseInt(price).value < 0)
  {
    if title == "" || price == "" || category == "" || description == "" then MissingField
    else
      match ParseInt(price)
      case None => BadPrice
      case Some(n) => if n < 0 then BadPrice else Submitted(n)
  }

  /** A price typed as plain digits is submitted as its value. */
  lemma DigitsPriceSubmitted(title: string, d: string, category: string, description: string)
    requires title != "" && category != "" && description != "" && |d| > 0
    requires forall k :: 0 <= k < |d| ==> IsDigit(d[k])
    ensures Submit(title, d, category, description) == Submitted(DigitsValue(d, false))
  {
    ParseIntDigits(d);
    var n := DigitsValue(d, false);
    assert ParseInt(d) == Some(n);
  }
}
