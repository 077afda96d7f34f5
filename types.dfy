/**
 * The value types of the image service (img/service.go) and the Command
 * record that a request hands to an execution lane.
 */
module Types {

  datatype Option<+T> = None | Some(value: T)

  datatype Result<+T, +E> = Success(value: T) | Failure(error: E)

  newtype byte = x: int | 0 <= x < 256

  /** An image: the identifier it was loaded from, its bytes and its MIME type. */
  datatype Image = Image(id: string, data: seq<byte>, mimeType: string)

  /**
   * Quality is a Go int: DEFAULT is 1 and LOW is 2 (`1 + iota`). A
   * TransformationConfig built without a quality keeps Go's zero value 0.
   */
  type Quality = int
  const DEFAULT: Quality := 1
  const LOW: Quality := 2

  /** The operation-specific part of a configuration: the size of resize and fit. */
  datatype ResizeConfig = ResizeConfig(size: string)

  /**
   * Input of one transformation. An empty supportedFormats means "keep the
   * source format". config is absent for optimise and for pass-through.
   */
  datatype TransformationConfig = TransformationConfig(
    src: Image,
    supportedFormats: seq<string>,
    quality: Quality,
    config: Option<ResizeConfig>)

  /** The pair (*Image, error) that a transformation returns. */
  datatype EngineResult = EngineResult(result: Option<Image>, err: Option<string>)

  /**
   * A transformation always yields an image or an error (or both); a call
   * returning neither would make the response writer dereference nil.
   */
  type EngineOutcome = o: EngineResult | o.result.Some? || o.err.Some?
    witness EngineResult(None, Some(""))

  /** The Cmd type: a transformation of the external engine. */
  type Cmd = TransformationConfig -> EngineOutcome

  /** The mutable part of a Command, as a value. */
  datatype CommandState = CommandState(result: Option<Image>, err: Option<string>, finished: bool)

  /**
   * A unit of work handed to a lane. transformation is absent for a
   * pass-through command, whose result is already present. The response
   * writer and the condition variable are not modelled: the lane's worker
   * and the waiting submitter are sequential here.
   */
  class Command {
    const transformation: Option<Cmd>
    const config: TransformationConfig
    var result: Option<Image>
    var err: Option<string>
    var finished: bool
    /** How many times a lane has invoked the transformation on this command. */
    ghost var runs: nat

    constructor (transformation: Option<Cmd>, config: TransformationConfig, result: Option<Image>)
      ensures this.transformation == transformation && this.config == config
      ensures State() == CommandState(result, None, false) && runs == 0
    {
      this.transformation := transformation;
      this.config := config;
      this.result := result;
      this.err := None;
      this.finished := false;
      this.runs := 0;
    }

    function State(): CommandState
      reads this
    {
      CommandState(result, err, finished)
    }

    /** A lane can process the command: there is a result or something to compute it. */
    predicate Runnable()
      reads this
    {
      result.Some? || transformation.Some?
    }
  }
}
