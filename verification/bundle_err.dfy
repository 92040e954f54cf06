/**
 * The reasons a selection cannot be bundled, each carrying the message the
 * demo shows to the user (source/js/BundleErrType.js).
 */
module BundleErr {

  /** The four values of the `BundleErrType` enumeration. */
  datatype BundleErrType = NoneSelected | TooFew | TooMany | DiffTypes {

    /** The `err_message` the constructor stores in each value. */
    function Message(): (m: string)
      ensures |m| > 0
    {
      match this
      case NoneSelected => "Nothing is selected. Please click on some sticks to select them."
      case TooFew => "You have not selected enough things."
      case TooMany => "You have selected too many things."
      case DiffTypes => "You cannot bundle different types of things."
    }
  }

  /** The length of each message. */
  function MessageLength(e: BundleErrType): nat {
    match e
    case NoneSelected => 64
    case TooFew => 36
    case TooMany => 34
    case DiffTypes => 44
  }

  lemma LengthOfMessage(e: BundleErrType)
    ensures |e.Message()| == MessageLength(e)
  {
  }

  /** The message identifies the value: no two values share a message. */
  lemma MessagesDistinct(a: BundleErrType, b: BundleErrType)
    ensures a.Message() == b.Message() <==> a == b
  {
    if a != b {
      // The four messages have four different lengths.
      LengthOfMessage(a);
      LengthOfMessage(b);
      assert MessageLength(a) != MessageLength(b);
    }
  }
}
