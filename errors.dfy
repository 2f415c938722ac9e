/** The exceptions the modelled scripts can raise, as values. Each constructor
    names the Python exception it stands for. Those raised while reading a
    file carry the 0-based index of the line (or row) that raised it, so that
    "the first bad line" is part of the contract; `ShapeMismatch` carries the
    1-based matrix row, `NoBatches` the epoch, and `MissingVectorSize` nothing. */
module Errors {

  datatype Error =
    /** IndexError: `line.strip().split()[0]` on a line with no token. */
    | BlankLine(line: nat)
    /** ValueError: a tab-split line does not unpack into three fields. */
    | WrongFieldCount(line: nat, fields: nat)
    /** ValueError: `int(x)` on a token that is not a base-10 integer. */
    | NotAnInteger(line: nat, token: string)
    /** OverflowError: `np.array(..., dtype=np.int64)` on a value outside int64. */
    | OutOfInt64Range(line: nat)
    /** TypeError: `w2v_model.vector_size + None` when the GloVe file is empty. */
    | MissingVectorSize
    /** ValueError: numpy cannot broadcast a merged vector into a matrix row. */
    | ShapeMismatch(row: nat)
    /** ZeroDivisionError: `total_loss / len(train_loader)` for an epoch without a batch. */
    | NoBatches(epoch: nat)

  datatype Result<T> = Ok(value: T) | Err(error: Error)

  datatype Option<T> = None | Some(value: T)
}
