/**
 * The two Python exceptions the readability formulas can raise, and a
 * result type that carries either a score or the exception.
 */
module PyErrors {

  datatype PyError =
    | ZeroDivisionError   // `x / 0` on a count that is zero
    | ValueError          // `random.sample(population, k)` with k > len(population)

  datatype Result<+T> = Ok(value: T) | Err(error: PyError)
}
