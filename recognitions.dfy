/**
 * The detector's result record. Everything but the breed name is fixed when
 * the record is made; the breed name is attached later, in place, by the
 * breed classifier step.
 */
module Recognitions {
  import opened Wrappers
  import opened BoxGeometry

  class Recognition {
    /** The detection row the record came from, as decimal text. */
    const id: string
    const title: string
    const confidence: real
    /** The box in bitmap coordinates; the source allows it to be null. */
    const location: Option<Rect>
    const detectedClass: int
    /** Set by setBreedName; null (None) until then. */
    var breedName: Option<string>

    constructor (id: string, title: string, confidence: real, location: Option<Rect>, detectedClass: int)
      ensures this.id == id && this.title == title && this.confidence == confidence
      ensures this.location == location && this.detectedClass == detectedClass
      ensures breedName == None
    {
      this.id := id;
      this.title := title;
      this.confidence := confidence;
      this.location := location;
      this.detectedClass := detectedClass;
      breedName := None;
    }

    method SetBreedName(name: Option<string>)
      modifies this
      ensures breedName == name
    {
      breedName := name;
    }
  }

  /** Every record has a box (box_iou and the tracker dereference them). */
  predicate HasLocations(list: seq<Recognition>)
  {
    forall r | r in list :: r.location.Some?
  }

  /** The box of a record that has one. */
  function BoxOf(r: Recognition): Rect
    requires r.location.Some?
  {
    r.location.value
  }
}
