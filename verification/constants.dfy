/** The numeric limits of `src/utils/constants.ts`. */
module Constants {
  const DefaultBrightness: int := 100
  const MinBrightness: int := 0
  const MaxBrightness: int := 100
  const MinColorTemp: int := 2000
  const MaxColorTemp: int := 9000
  const DefaultColorTemp: int := 4000
}
