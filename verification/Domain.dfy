/** The records that every other module shares. */
module Domain {

  datatype Option<+T> = None | Some(value: T)

  /** A Go float as the program can observe it. Finite values are exact reals. */
  datatype Seconds = NaN | NegInf | PosInf | Finite(value: real)

  datatype DanmakuData = DanmakuData(
    time: Seconds,
    mode: int,
    size: int,
    color: int,
    timestamp: int,
    pool: int,
    author: string,
    authorID: int,
    text: Option<string>)

  /** A missing text pointer reads as the empty string. */
  function PointerValue(text: Option<string>): string {
    match text
    case None => ""
    case Some(value) => value
  }
}
