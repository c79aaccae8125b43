/**
 * The records and constants of Android's sensors HAL header
 * (hardware/sensors.h) that the tiny210 sensor library fills in. The
 * header itself is not part of this model; only the members the library
 * touches are kept, and float fields are held as integers.
 */
module SensorTypes {
  /** SENSORS_HARDWARE_POLL: the only device id the module opens. */
  const SensorsHardwarePoll: string := "poll"
  /** SENSORS_HANDLE_BASE. */
  const SensorsHandleBase: int := 0
  /** SENSOR_TYPE_ACCELEROMETER. */
  const SensorTypeAccelerometer: int := 1
  /** SENSOR_STATUS_ACCURACY_MEDIUM. */
  const SensorStatusAccuracyMedium: int := 2
  /** sizeof(sensors_event_t), which the HAL uses as the event's version. */
  const SensorsEventSize: int := 104

  /** The `acceleration` member of an event (floats in C). */
  datatype Acceleration = Acceleration(x: int, y: int, z: int, status: int)

  /** sensors_event_t, restricted to the fields the library writes. */
  datatype SensorsEvent = SensorsEvent(
    version: int,
    sensor: int,
    eventType: int,
    timestamp: int,
    acceleration: Acceleration)

  /** An all-zero event, as a caller's buffer may hold before a poll. */
  const BlankEvent: SensorsEvent := SensorsEvent(0, 0, 0, 0, Acceleration(0, 0, 0, 0))

  /** struct sensor_t: the static description of one sensor. */
  datatype SensorT = SensorT(
    name: string,
    vendor: string,
    version: int,
    handle: int,
    sensorType: int,
    maxRange: int,
    resolution: int,
    power: int)
}
