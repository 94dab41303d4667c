/** The constants of client/pps-client.h that the controller uses. */
module Constants {
  const USECS_PER_SEC := 1000000
  const SECS_PER_MINUTE := 60
  const INV_GAIN_1 := 1
  const INV_GAIN_0 := 4
  const INTEGRAL_GAIN := 0.63212
  const OFFSETFIFO_LEN := 80
  const NUM_INTEGRALS := 10
  const ADJTIMEX_SCALE := 65536.0
  const INTERRUPT_LATENCY := 6
  const BLOCK_FOR_3 := 3
  const CHECK_TIME_SERIAL := 600
  const MAX_SPIKES := 30
  const NOISE_FACTOR := 0.354
  const NOISE_LEVEL_MIN := 4
  const SLEW_LEN := 10
  const SLEW_MAX := 65.0
  const HARD_LIMIT_NONE := 32768
  const HARD_LIMIT_1024 := 1024
  const HARD_LIMIT_4 := 4
  const HARD_LIMIT_1 := 1
  const HARD_LIMIT_05 := 0.5
}
