/** The parts of the Python runtime that the model leaves uninterpreted: they are
    passed in, so every analyzer is a function of them. */
module Host {

  datatype Runtime = Runtime(
    /** `c.lower()` for a character outside ASCII (Python may map one character to several). */
    lowerNonAscii: char -> string,
    /** `c.isalnum()` for a character outside ASCII (part of the regex class `\w`). */
    isNonAsciiAlnum: char -> bool,
    /** `round(x, 4)` on the service's floating-point scores. */
    round4: real -> real)
}
