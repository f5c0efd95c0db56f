/** include/robot_config.hpp: topology and periods. */
module RobotConfig {
  import opened Util

  const NUM_JOINTS: nat := 13
  const NUM_CHANNELS: nat := 4
  const MAX_MOTORS_PER_CHANNEL: nat := 4

  datatype MapEntry = MapEntry(channel: nat, motor: Byte, joint: nat)

  const MOTOR_MAP: seq<MapEntry> := [
    MapEntry(1, 0, 0), MapEntry(1, 1, 7), MapEntry(1, 2, 8), MapEntry(1, 3, 9),
    MapEntry(0, 4, 10), MapEntry(0, 5, 11), MapEntry(0, 6, 12),
    MapEntry(2, 1, 1), MapEntry(2, 2, 2), MapEntry(2, 3, 3),
    MapEntry(3, 4, 4), MapEntry(3, 5, 5), MapEntry(3, 6, 6)
  ]

  /** One motor of a channel and the joint it drives (MotorThread::MotorBinding). */
  datatype Binding = Binding(motor: Byte, joint: int)
}
