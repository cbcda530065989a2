/**
 * The exceptions the interpreter raises or receives, with the part of the
 * Java class hierarchy the error translator tests, and the translator
 * itself: a total mapping from exception to message.
 */
module Exceptions {
  import opened Wrappers
  import opened Text

  /** The concrete exception classes that reach the translator. */
  datatype ExceptionClass =
    | InstantiationException
    | IllegalAccessException
      /** A method (or a constructor) threw; the JVM's last stack frame and the cause's toString are given. */
    | InvocationTargetException(lastFrame: string, cause: Option<string>)
    | NoSuchMethodException
    | IllegalArgumentException
    | NumberFormatException
    | ClassCastException
    | IndexOutOfBoundsException
    | StringIndexOutOfBoundsException
    | IOException
    | FileNotFoundException
      /** Any other exception a command or the host raises. */
    | OtherException(name: string)

  /** A thrown exception: its class and getMessage(), which may be null. */
  datatype Failure = Failure(cls: ExceptionClass, message: Option<string>)

  /** e instanceof IllegalArgumentException: NumberFormatException is a subclass. */
  predicate IsIllegalArgument(c: ExceptionClass)
  {
    c.IllegalArgumentException? || c.NumberFormatException?
  }

  function IllegalArgument(message: string): Failure
  {
    Failure(IllegalArgumentException, Some(message))
  }

  /** The NumberFormatException of Integer.parseInt, Long.parseLong and of Double.parseDouble for non-blank text. */
  function ForInputString(s: string): Failure
  {
    Failure(NumberFormatException, Some("For input string: \"" + s + "\""))
  }

  /** The exception of ArrayList.get and ArrayList.remove with an index past the end. */
  function IndexOutOfBounds(index: nat, length: nat): Failure
  {
    Failure(IndexOutOfBoundsException,
            Some("Index " + IntToString(index) + " out of bounds for length " + IntToString(length)))
  }

  /** The exception of String.substring(begin, end) with end before begin. */
  function SubstringOutOfBounds(begin: nat, end: nat, length: nat): Failure
  {
    Failure(StringIndexOutOfBoundsException,
            Some("begin " + IntToString(begin) + ", end " + IntToString(end) + ", length " + IntToString(length)))
  }

  /** new FileReader(name) for a file that does not exist. */
  function FileNotFound(name: string): Failure
  {
    Failure(FileNotFoundException, Some(name + " (No such file or directory)"))
  }

  /** How string concatenation renders a possibly null string. */
  function OrNull(s: Option<string>): string
  {
    match s
    case Some(v) => v
    case None => "null"
  }

  /** The text of ExceptionHandler.handleException: the first instanceof test that e passes decides it. */
  function HandleException(e: Failure): (r: Option<string>)
    ensures e.cls.InstantiationException? ==> r == Some("Could not create instance of requested class.")
    ensures e.cls.IllegalAccessException? ==> r == Some("Could not access method.")
    ensures e.cls.NoSuchMethodException? ==> r == Some("Method could not be found.")
    ensures e.cls.InvocationTargetException? ==>
      r.Some? && StartsWith(r.value, "Something went wrong in called method: ") &&
      EndsWith(r.value, LineSeparator + "Caused by " + OrNull(e.cls.cause))
    ensures IsIllegalArgument(e.cls) ==> r == e.message
    ensures e.cls.ClassCastException? ==> r == Some("Unable to cast class, \n" + OrNull(e.message))
    ensures (e.cls.IndexOutOfBoundsException? || e.cls.StringIndexOutOfBoundsException? ||
             e.cls.IOException? || e.cls.FileNotFoundException? || e.cls.OtherException?) ==> r == e.message
  {
    match e.cls
    case InstantiationException => Some("Could not create instance of requested class.")
    case IllegalAccessException => Some("Could not access method.")
    case InvocationTargetException(frame, cause) =>
      var tail := LineSeparator + "Caused by " + OrNull(cause);
      ConcatAffixes("Something went wrong in called method: ", frame, tail);
      Some("Something went wrong in called method: " + frame + tail)
    case NoSuchMethodException => Some("Method could not be found.")
    case IllegalArgumentException => e.message
    case NumberFormatException => e.message
    case ClassCastException => Some("Unable to cast class, \n" + OrNull(e.message))
    case _ => e.message
  }

  /** The translator is total and only an exception without a message of its own yields no text. */
  lemma HandleExceptionText(e: Failure)
    ensures HandleException(e).None? ==> e.message.None?
  {
  }
}
