/** Admission rules for a sensor reading (sensors/validators/validators.py). */
module Validators {

  const Temperature: string := "temperature"
  const Humidity: string := "humidity"

  /** The only reading types ever stored; matched exactly, case included. */
  const ReadingsTypes: seq<string> := [Temperature, Humidity]

  const NotValidType: string := "NOT_VALID_TYPE"
  const ReadingOutOfRange: string := "READING_OUT_OF_RANGE"
  const ReadingsTypesErrors: seq<string> := [NotValidType, ReadingOutOfRange]

  const NotValidSearchingType: string := "NOT_VALID_SEARCHING_TYPE"
  const CustomSearchErrors: seq<string> := [NotValidSearchingType]

  /** `reading_is_valid`: the type check first, then the value must lie in
      `range(0, 101)`. The answer is a flag and an error code ("" on success). */
  function ReadingIsValid(sensorType: string, value: int): (r: (bool, string))
    ensures r.0 <==> sensorType in ReadingsTypes && 0 <= value <= 100
    ensures r.0 ==> r.1 == ""
    ensures !r.0 ==> r.1 in ReadingsTypesErrors
    ensures sensorType !in ReadingsTypes ==> r.1 == NotValidType
    ensures sensorType in ReadingsTypes && !r.0 ==> r.1 == ReadingOutOfRange
  {
    if sensorType !in ReadingsTypes then (false, ReadingsTypesErrors[0])
    else if !(0 <= value < 101) then (false, ReadingsTypesErrors[1])
    else (true, "")
  }

  /** `is_valid_type`: the type check alone, used by the search endpoint. */
  function IsValidType(sensorType: string): (r: (bool, string))
    ensures r.0 <==> sensorType in ReadingsTypes
    ensures r.1 == if r.0 then "" else NotValidType
  {
    if sensorType !in ReadingsTypes then (false, ReadingsTypesErrors[0])
    else (true, "")
  }

  /** The two entry points agree on types: a type passes `is_valid_type`
      exactly when `reading_is_valid` does not reject it as a type, whatever
      the value. */
  lemma TypeCheckAgrees(sensorType: string, value: int)
    ensures IsValidType(sensorType).0 <==> ReadingIsValid(sensorType, value) != (false, NotValidType)
  {
  }

  /** The type check takes precedence: an unknown type is reported as such
      even when the value is also out of range. */
  lemma TypeCheckFirst(sensorType: string, value: int)
    requires sensorType !in ReadingsTypes
    ensures ReadingIsValid(sensorType, value) == (false, NotValidType)
  {
  }

  /** Both ends of the range are admitted; their neighbours are not. */
  lemma RangeBoundaries()
    ensures ReadingIsValid(Temperature, 0) == (true, "")
    ensures ReadingIsValid(Humidity, 100) == (true, "")
    ensures ReadingIsValid(Temperature, -1) == (false, ReadingOutOfRange)
    ensures ReadingIsValid(Humidity, 101) == (false, ReadingOutOfRange)
    ensures ReadingIsValid("pressure", 50) == (false, NotValidType)
  {
  }

  /** Matching is exact: a capitalised type name is not a known type. */
  lemma TypeIsCaseSensitive()
    ensures ReadingIsValid("Temperature", 50) == (false, NotValidType)
    ensures IsValidType("HUMIDITY") == (false, NotValidType)
  {
    assert "Temperature" != Temperature && "Temperature" != Humidity by {
      assert "Temperature"[0] != Temperature[0];
    }
    assert "HUMIDITY" != Temperature && "HUMIDITY" != Humidity by {
      assert "HUMIDITY"[0] != Humidity[0];
    }
  }
}
